/** The ordering `getNotes` applies: `Array.prototype.sort` (stable) with the comparator
    `b.updatedAt - a.updatedAt`, so the most recently updated note comes first. */
module Recency {
  import opened Types
  import opened Seqs

  predicate NewestFirst(s: seq<Note>) {
    forall i, j :: 0 <= i < j < |s| ==> s[i].updatedAt >= s[j].updatedAt
  }

  /** Selects the notes stamped with exactly `t`. */
  function StampedAt(t: int): Note -> bool {
    (n: Note) => n.updatedAt == t
  }

  /** Puts `x` in front of the first note that is not newer than it. */
  function Insert(x: Note, s: seq<Note>): (r: seq<Note>)
    ensures multiset(r) == multiset(s) + multiset{x}
  {
    if |s| == 0 || x.updatedAt >= s[0].updatedAt then [x] + s
    else
      assert s == [s[0]] + s[1..];
      [s[0]] + Insert(x, s[1..])
  }

  /** Inserting into a newest-first list keeps it newest first. */
  lemma {:induction false} InsertNewestFirst(x: Note, s: seq<Note>)
    requires NewestFirst(s)
    ensures NewestFirst(Insert(x, s))
    decreases |s|
  {
    if |s| > 0 && x.updatedAt < s[0].updatedAt {
      var rest := Insert(x, s[1..]);
      InsertNewestFirst(x, s[1..]);
      var r := [s[0]] + rest;
      assert r == Insert(x, s);
      forall k | 0 <= k < |rest| ensures s[0].updatedAt >= rest[k].updatedAt {
        assert rest[k] in multiset(rest);
        assert rest[k] == x || rest[k] in multiset(s[1..]);
        if rest[k] != x {
          var m :| 0 <= m < |s[1..]| && s[1..][m] == rest[k];
          assert s[m + 1] == rest[k];
        }
      }
      forall i, j | 0 <= i < j < |r| ensures r[i].updatedAt >= r[j].updatedAt {
        if i > 0 {
          assert r[i] == rest[i - 1] && r[j] == rest[j - 1];
        } else {
          assert r[j] == rest[j - 1];
        }
      }
    }
  }

  /** Stable insertion sort, newest first. */
  function SortNewestFirst(s: seq<Note>): (r: seq<Note>)
    ensures multiset(r) == multiset(s)
    ensures NewestFirst(r)
  {
    if |s| == 0 then []
    else
      assert s == [s[0]] + s[1..];
      var rest := SortNewestFirst(s[1..]);
      InsertNewestFirst(s[0], rest);
      Insert(s[0], rest)
  }

  lemma {:induction false} InsertStable(x: Note, s: seq<Note>, t: int)
    ensures Filter(Insert(x, s), StampedAt(t)) ==
            (if x.updatedAt == t then [x] else []) + Filter(s, StampedAt(t))
    decreases |s|
  {
    var p := StampedAt(t);
    var lead := if x.updatedAt == t then [x] else [];
    if |s| == 0 || x.updatedAt >= s[0].updatedAt {
      FilterConcat([x], s, p);
      assert Filter([x], p) == lead;
    } else {
      var rest := Insert(x, s[1..]);
      InsertStable(x, s[1..], t);
      assert Filter(rest, p) == lead + Filter(s[1..], p);
      FilterConcat([s[0]], rest, p);
      FilterConcat([s[0]], s[1..], p);
      assert s == [s[0]] + s[1..];
      if x.updatedAt == t {
        assert !p(s[0]);
        assert Filter([s[0]], p) == [];
      }
    }
  }

  /** Stability: notes with equal timestamps keep their relative order. */
  lemma {:induction false} SortStable(s: seq<Note>, t: int)
    ensures Filter(SortNewestFirst(s), StampedAt(t)) == Filter(s, StampedAt(t))
    decreases |s|
  {
    if |s| > 0 {
      SortStable(s[1..], t);
      InsertStable(s[0], SortNewestFirst(s[1..]), t);
      FilterConcat([s[0]], s[1..], StampedAt(t));
      assert s == [s[0]] + s[1..];
    }
  }
}
