/** The JavaScript string built-ins the core relies on: `trim`, `toLowerCase`,
    `includes`, `split` and `Array.prototype.join`. */
module Text {

  /** The code points `String.prototype.trim` strips: the WhiteSpace and
      LineTerminator productions of ECMAScript (section 12.2 and 12.3 of ECMA-262). */
  const Whitespace: set<char> :=
         {'\t', '\n', '\U{000B}', '\U{000C}', '\r', ' ', '\U{00A0}', '\U{1680}',
          '\U{2000}', '\U{2001}', '\U{2002}', '\U{2003}', '\U{2004}', '\U{2005}', '\U{2006}',
          '\U{2007}', '\U{2008}', '\U{2009}', '\U{200A}', '\U{2028}', '\U{2029}', '\U{202F}',
          '\U{205F}', '\U{3000}', '\U{FEFF}'}

  predicate IsSpace(c: char) {
    c in Whitespace
  }

  /** No whitespace at either end. */
  predicate IsTrimmed(s: string) {
    |s| == 0 || (!IsSpace(s[0]) && !IsSpace(s[|s| - 1]))
  }

  predicate AllSpace(s: string) {
    forall k :: 0 <= k < |s| ==> IsSpace(s[k])
  }

  /** Index of the first non-whitespace character, or `|s|` when there is none. */
  function TrimFrom(s: string): (i: nat)
    ensures i <= |s|
    ensures forall k :: 0 <= k < i ==> IsSpace(s[k])
    ensures i < |s| ==> !IsSpace(s[i])
  {
    if |s| == 0 || !IsSpace(s[0]) then 0
    else
      var i := TrimFrom(s[1..]);
      assert forall k :: 1 <= k < i + 1 ==> s[k] == s[1..][k - 1];
      i + 1
  }

  /** One past the last non-whitespace character, or 0 when there is none. */
  function TrimTo(s: string): (j: nat)
    ensures j <= |s|
    ensures forall k :: j <= k < |s| ==> IsSpace(s[k])
    ensures j > 0 ==> !IsSpace(s[j - 1])
  {
    if |s| == 0 || !IsSpace(s[|s| - 1]) then |s|
    else
      var j := TrimTo(s[..|s| - 1]);
      assert forall k :: j <= k < |s| - 1 ==> s[k] == s[..|s| - 1][k];
      j
  }

  /** `s.trim()`: the slice of `s` between its leading and trailing whitespace. */
  function Trim(s: string): (r: string)
    ensures IsTrimmed(r)
    ensures TrimFrom(s) < TrimTo(s) ==> r == s[TrimFrom(s)..TrimTo(s)]
    ensures TrimTo(s) <= TrimFrom(s) ==> r == "" && AllSpace(s)
  {
    var i := TrimFrom(s);
    var j := TrimTo(s);
    if i < j then s[i..j] else ""
  }

  /** `Trim` keeps exactly a slice of `s` with only whitespace outside it. */
  lemma {:induction false} TrimSlice(s: string)
    ensures exists i, j :: SliceBetweenSpaces(s, Trim(s), i, j)
  {
    var i := TrimFrom(s);
    var j := TrimTo(s);
    if i < j {
      assert SliceBetweenSpaces(s, Trim(s), i, j);
    } else {
      assert SliceBetweenSpaces(s, Trim(s), 0, 0);
    }
  }

  /** `r` is `s[i..j]` and only whitespace lies outside that slice. */
  predicate SliceBetweenSpaces(s: string, r: string, i: int, j: int) {
    0 <= i <= j <= |s| && r == s[i..j] && AllSpace(s[..i]) && AllSpace(s[j..])
  }

  lemma {:induction false} TrimKeepsTrimmed(s: string)
    requires IsTrimmed(s)
    ensures Trim(s) == s
  {
    if |s| > 0 {
      assert TrimFrom(s) == 0 && TrimTo(s) == |s|;
    }
  }

  /** Trimming is idempotent. */
  lemma {:induction false} TrimIdempotent(s: string)
    ensures Trim(Trim(s)) == Trim(s)
  {
    TrimKeepsTrimmed(Trim(s));
  }

  /** A trimmed string padded with one leading space trims back to itself. */
  lemma {:induction false} TrimLeadingSpace(x: string)
    requires IsTrimmed(x)
    ensures Trim(" " + x) == x
  {
    var s := " " + x;
    assert s[1..] == x;
    assert TrimFrom(s) == 1 + TrimFrom(x);
    if |x| > 0 {
      assert TrimFrom(x) == 0 && TrimTo(s) == |s|;
      assert s[1..|s|] == x;
    }
  }

  /** Only all-whitespace strings trim to the empty string. */
  lemma {:induction false} TrimEmptyIff(s: string)
    ensures Trim(s) == "" <==> AllSpace(s)
  {
  }

  /** Every character of the trimmed string occurs in the original. */
  lemma {:induction false} TrimChars(s: string, c: char)
    requires c in Trim(s)
    ensures c in s
  {
    var r := Trim(s);
    var k :| 0 <= k < |r| && r[k] == c;
    assert s[TrimFrom(s) + k] == c;
  }

  /** ASCII `toLowerCase` on one character. */
  function LowerChar(c: char): (r: char)
    ensures 'A' <= c <= 'Z' ==> r as int == c as int + 32
    ensures !('A' <= c <= 'Z') ==> r == c
    ensures !('A' <= r <= 'Z')
  {
    if 'A' <= c <= 'Z' then (c as int + 32) as char else c
  }

  /** ASCII `s.toLowerCase()`. */
  function Lower(s: string): (r: string)
    ensures |r| == |s|
    ensures forall k :: 0 <= k < |s| ==> r[k] == LowerChar(s[k])
  {
    seq(|s|, k requires 0 <= k < |s| => LowerChar(s[k]))
  }

  /** Lowercasing twice is lowercasing once. */
  lemma {:induction false} LowerIdempotent(s: string)
    ensures Lower(Lower(s)) == Lower(s)
  {
  }

  /** `hay.includes(needle)`. */
  function Contains(hay: string, needle: string): bool
    decreases |hay|
  {
    if |needle| <= |hay| && hay[..|needle|] == needle then true
    else if |hay| == 0 then false
    else Contains(hay[1..], needle)
  }

  /** `needle` occurs in `hay` starting at position `i`. */
  predicate OccursAt(hay: string, needle: string, i: int) {
    0 <= i && i + |needle| <= |hay| && hay[i..i + |needle|] == needle
  }

  /** `Contains` holds exactly when `needle` occurs at some position of `hay`. */
  lemma {:induction false} ContainsIff(hay: string, needle: string)
    ensures Contains(hay, needle) <==> exists i :: OccursAt(hay, needle, i)
    decreases |hay|
  {
    if |needle| <= |hay| && hay[..|needle|] == needle {
      assert OccursAt(hay, needle, 0);
    } else if |hay| == 0 {
    } else {
      ContainsIff(hay[1..], needle);
      if exists i :: OccursAt(hay, needle, i) {
        var i :| OccursAt(hay, needle, i);
        assert i != 0;
        assert hay[1..][i - 1..i - 1 + |needle|] == hay[i..i + |needle|];
        assert OccursAt(hay[1..], needle, i - 1);
      }
      if Contains(hay[1..], needle) {
        var i :| OccursAt(hay[1..], needle, i);
        assert hay[i + 1..i + 1 + |needle|] == hay[1..][i..i + |needle|];
        assert OccursAt(hay, needle, i + 1);
      }
    }
  }

  /** Every string includes the empty string. */
  lemma {:induction false} ContainsEmpty(hay: string)
    ensures Contains(hay, "")
  {
  }

  /** Number of occurrences of `c` in `s`. */
  function Count(s: string, c: char): nat {
    if |s| == 0 then 0 else (if s[0] == c then 1 else 0) + Count(s[1..], c)
  }

  /** `s.split(',')`: the maximal comma-free pieces between commas. */
  function Split(s: string): (r: seq<string>)
    ensures |r| == Count(s, ',') + 1
    ensures forall k :: 0 <= k < |r| ==> ',' !in r[k]
    ensures Join(r, ",") == s
  {
    if |s| == 0 then [""]
    else
      var rest := Split(s[1..]);
      if s[0] == ',' then
        assert Join([""] + rest, ",") == "" + "," + Join(rest, ",");
        [""] + rest
      else
        var r := [[s[0]] + rest[0]] + rest[1..];
        assert |rest| == 1 ==> Join(r, ",") == [s[0]] + rest[0];
        assert |rest| > 1 ==> Join(r, ",") == [s[0]] + rest[0] + "," + Join(rest[1..], ",");
        assert [s[0]] + s[1..] == s;
        r
  }

  /** `items.join(sep)`: the items with `sep` between neighbours. */
  function Join(items: seq<string>, sep: string): string {
    if |items| == 0 then ""
    else if |items| == 1 then items[0]
    else items[0] + sep + Join(items[1..], sep)
  }

  /** A comma-free string splits into itself. */
  lemma {:induction false} SplitCommaFree(x: string)
    requires ',' !in x
    ensures Split(x) == [x]
    decreases |x|
  {
    if |x| > 0 {
      SplitCommaFree(x[1..]);
      assert [x[0]] + x[1..] == x;
    }
  }

  /** Splitting at the first comma: a comma-free head becomes the first piece. */
  lemma {:induction false} SplitAfterComma(a: string, b: string)
    requires ',' !in a
    ensures Split(a + "," + b) == [a] + Split(b)
    decreases |a|
  {
    if |a| == 0 {
      assert a + "," + b == "," + b;
      assert ("," + b)[1..] == b;
    } else {
      var t := a + "," + b;
      assert t[0] == a[0] && t[1..] == a[1..] + "," + b;
      SplitAfterComma(a[1..], b);
      assert [a[0]] + a[1..] == a;
    }
  }

  /** A character of an item occurs in the joined string. */
  lemma {:induction false} JoinChars(items: seq<string>, sep: string, k: int, c: char)
    requires 0 <= k < |items| && c in items[k]
    ensures c in Join(items, sep)
    decreases |items|
  {
    if |items| > 1 {
      var j := Join(items, sep);
      if k == 0 {
        var m :| 0 <= m < |items[0]| && items[0][m] == c;
        assert j[m] == c;
      } else {
        JoinChars(items[1..], sep, k - 1, c);
        var rest := Join(items[1..], sep);
        var m :| 0 <= m < |rest| && rest[m] == c;
        assert j[|items[0]| + |sep| + m] == c;
      }
    }
  }

  /** A character of the joined string that is not part of the separator comes from an item. */
  lemma {:induction false} JoinCharsBack(items: seq<string>, sep: string, c: char)
    requires c in Join(items, sep) && c !in sep
    ensures exists k :: 0 <= k < |items| && c in items[k]
    decreases |items|
  {
    if |items| == 1 {
      assert c in items[0];
    } else if |items| > 1 {
      var j := Join(items, sep);
      var rest := Join(items[1..], sep);
      assert j == items[0] + sep + rest;
      var m :| 0 <= m < |j| && j[m] == c;
      if m < |items[0]| {
        assert items[0][m] == c;
      } else if m >= |items[0]| + |sep| {
        assert rest[m - |items[0]| - |sep|] == c;
        JoinCharsBack(items[1..], sep, c);
        var k :| 0 <= k < |items[1..]| && c in items[1..][k];
        assert c in items[k + 1];
      }
    }
  }
}
