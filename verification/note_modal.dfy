/** The data side of `NoteModal`: how participant and tag lists are shown as text and
    read back, and the payload the modal hands to `onSave`. */
module NoteModal {
  import opened Wrappers
  import opened Types
  import opened Seqs
  import opened Text

  /** The AI summary state of the modal (`generatedData`). */
  datatype Generated = Generated(summary: Option<string>, actionItems: Option<seq<string>>)

  /** The modal's form state. */
  datatype Form = Form(title: string, participants: string, tags: string, content: string,
                       generated: Option<Generated>)

  /** `items.join(', ')`. */
  function FormatList(items: seq<string>): string {
    Join(items, ", ")
  }

  function TrimAll(pieces: seq<string>): (r: seq<string>)
    ensures |r| == |pieces|
    ensures forall k :: 0 <= k < |r| ==> r[k] == Trim(pieces[k])
  {
    seq(|pieces|, k requires 0 <= k < |pieces| => Trim(pieces[k]))
  }

  /** `filter(Boolean)` on strings: keep the non-empty ones. */
  function NonEmpty(): string -> bool {
    (x: string) => Truthy(x)
  }

  /** An item the list parser can produce: non-empty, trimmed, comma-free. */
  predicate ListItem(x: string) {
    x != "" && IsTrimmed(x) && ',' !in x
  }

  /** `text.split(',').map(p => p.trim()).filter(Boolean)`. */
  function ParseList(text: string): (r: seq<string>)
    ensures forall k :: 0 <= k < |r| ==> ListItem(r[k])
    ensures |r| <= Count(text, ',') + 1
  {
    var pieces := Split(text);
    var trimmed := TrimAll(pieces);
    var r := Filter(trimmed, NonEmpty());
    FilterMembers(trimmed, NonEmpty());
    forall k | 0 <= k < |r| ensures ',' !in r[k] {
      var m :| 0 <= m < |trimmed| && trimmed[m] == r[k];
      if ',' in r[k] {
        TrimChars(pieces[m], ',');
      }
    }
    r
  }

  predicate CommaOrSpace(c: char) {
    c == ',' || IsSpace(c)
  }

  /** A piece of all-comma-and-space text is all space. */
  lemma {:induction false} BlankPiece(text: string, m: int)
    requires forall k :: 0 <= k < |text| ==> CommaOrSpace(text[k])
    requires 0 <= m < |Split(text)|
    ensures Trim(Split(text)[m]) == ""
  {
    var pieces := Split(text);
    forall q | 0 <= q < |pieces[m]| ensures IsSpace(pieces[m][q]) {
      JoinChars(pieces, ",", m, pieces[m][q]);
    }
    TrimEmptyIff(pieces[m]);
  }

  /** A character that is neither comma nor space keeps its piece alive. */
  lemma {:induction false} SolidPiece(text: string, k: int) returns (m: int)
    requires 0 <= k < |text| && !CommaOrSpace(text[k])
    ensures 0 <= m < |Split(text)| && Trim(Split(text)[m]) != ""
  {
    var pieces := Split(text);
    JoinCharsBack(pieces, ",", text[k]);
    m :| 0 <= m < |pieces| && text[k] in pieces[m];
    var q :| 0 <= q < |pieces[m]| && pieces[m][q] == text[k];
    TrimEmptyIff(pieces[m]);
  }

  /** Text made only of commas and whitespace (the empty text included) parses to the
      empty list, and no other text does. */
  lemma {:induction false} ParseBlankIff(text: string)
    ensures ParseList(text) == [] <==> forall k :: 0 <= k < |text| ==> CommaOrSpace(text[k])
  {
    var pieces := Split(text);
    var trimmed := TrimAll(pieces);
    if forall k :: 0 <= k < |text| ==> CommaOrSpace(text[k]) {
      forall m | 0 <= m < |trimmed| ensures !NonEmpty()(trimmed[m]) {
        BlankPiece(text, m);
      }
      FilterKeepsNone(trimmed, NonEmpty());
    } else {
      var k :| 0 <= k < |text| && !CommaOrSpace(text[k]);
      var m := SolidPiece(text, k);
      assert NonEmpty()(trimmed[m]);
      FilterMembers(trimmed, NonEmpty());
      assert trimmed[m] in ParseList(text);
    }
  }

  /** `" " + x` for every item. */
  function PadAll(items: seq<string>): (r: seq<string>)
    ensures |r| == |items|
    ensures forall k :: 0 <= k < |r| ==> r[k] == " " + items[k]
  {
    seq(|items|, k requires 0 <= k < |items| => " " + items[k])
  }

  /** Splitting a `', '`-join at its commas leaves a space in front of every item but the first. */
  lemma {:induction false} SplitFormatted(items: seq<string>)
    requires |items| > 0
    requires forall k :: 0 <= k < |items| ==> ',' !in items[k]
    ensures Split(FormatList(items)) == [items[0]] + PadAll(items[1..])
    decreases |items|
  {
    if |items| == 1 {
      SplitCommaFree(items[0]);
    } else {
      var rest := FormatList(items[1..]);
      assert FormatList(items) == items[0] + "," + (" " + rest);
      SplitAfterComma(items[0], " " + rest);
      SplitFormatted(items[1..]);
      var pieces := Split(rest);
      assert (" " + rest)[0] == ' ' && (" " + rest)[1..] == rest;
      assert Split(" " + rest) == [" " + pieces[0]] + pieces[1..];
      assert PadAll(items[1..]) == [" " + items[1]] + PadAll(items[2..]);
    }
  }

  /** Trimming the pieces of a `', '`-join gives back the items. */
  lemma {:induction false} TrimFormatted(items: seq<string>)
    requires |items| > 0
    requires forall k :: 0 <= k < |items| ==> ListItem(items[k])
    ensures TrimAll([items[0]] + PadAll(items[1..])) == items
  {
    var pieces := [items[0]] + PadAll(items[1..]);
    var trimmed := TrimAll(pieces);
    forall k | 0 <= k < |items| ensures trimmed[k] == items[k] {
      if k == 0 {
        TrimKeepsTrimmed(items[0]);
      } else {
        assert pieces[k] == " " + items[k];
        TrimLeadingSpace(items[k]);
      }
    }
  }

  lemma {:induction false} EmptyListRoundTrip()
    ensures ParseList(FormatList([])) == []
  {
    assert FormatList([]) == "";
    assert Split("") == [""];
    assert TrimAll([""]) == [""];
    assert !NonEmpty()("");
    assert Filter([""], NonEmpty()) == Filter([""][1..], NonEmpty());
  }

  /** Round trip: a list of parser-shaped items survives being shown and read back. */
  lemma {:induction false} ListRoundTrip(items: seq<string>)
    requires forall k :: 0 <= k < |items| ==> ListItem(items[k])
    ensures ParseList(FormatList(items)) == items
  {
    if |items| == 0 {
      EmptyListRoundTrip();
    } else {
      SplitFormatted(items);
      TrimFormatted(items);
      FilterKeepsAll(items, NonEmpty());
    }
  }

  lemma {:induction false} ShapedRoundTrip(items: seq<string>)
    ensures (forall k :: 0 <= k < |items| ==> ListItem(items[k])) ==> ParseList(FormatList(items)) == items
  {
    if forall k :: 0 <= k < |items| ==> ListItem(items[k]) {
      ListRoundTrip(items);
    }
  }

  /** Reading back what was read is a no-op: parsing normalises in one step. */
  lemma {:induction false} ParseNormalises(text: string)
    ensures ParseList(FormatList(ParseList(text))) == ParseList(text)
  {
    ListRoundTrip(ParseList(text));
  }

  /** The form the modal shows when it opens, for editing `initial` or for a new note.
      The list fields read back as the note's own lists when those are in parser shape. */
  function OpenForm(initial: Option<Note>): (f: Form)
    ensures initial.None? ==> f == Form("", "", "", "", None)
    ensures initial.Some? ==>
      && f.title == initial.value.title && f.content == initial.value.content
      && f.generated == Some(Generated(initial.value.summary, initial.value.actionItems))
      && f.participants == FormatList(initial.value.participants)
      && f.tags == FormatList(initial.value.tags)
    ensures initial.Some? && (forall k :: 0 <= k < |initial.value.participants| ==> ListItem(initial.value.participants[k]))
            ==> ParseList(f.participants) == initial.value.participants
    ensures initial.Some? && (forall k :: 0 <= k < |initial.value.tags| ==> ListItem(initial.value.tags[k]))
            ==> ParseList(f.tags) == initial.value.tags
  {
    match initial
    case None => Form("", "", "", "", None)
    case Some(n) =>
      ShapedRoundTrip(n.participants);
      ShapedRoundTrip(n.tags);
      Form(n.title, FormatList(n.participants), FormatList(n.tags), n.content,
           Some(Generated(n.summary, n.actionItems)))
  }

  /** The `noteData` object `handleSave` passes to `onSave`. */
  function SavePayload(f: Form, initial: Option<Note>): (p: Patch)
    ensures p.id == (if initial.Some? then Some(initial.value.id) else None)
    ensures p.userId.None? && p.createdAt.None? && p.updatedAt.None?
    ensures p.title == Some(f.title) && p.content == Some(f.content)
    ensures p.participants.Some? && p.tags.Some?
    ensures forall k :: 0 <= k < |p.participants.value| ==> ListItem(p.participants.value[k])
    ensures forall k :: 0 <= k < |p.tags.value| ==> ListItem(p.tags.value[k])
    ensures p.participants == Some(ParseList(f.participants)) && p.tags == Some(ParseList(f.tags))
    ensures p.summary == Some(if f.generated.Some? then f.generated.value.summary else None)
    ensures p.actionItems == Some(if f.generated.Some? then f.generated.value.actionItems else None)
  {
    var id := match initial case Some(n) => Some(n.id) case None => None;
    var summary := match f.generated case Some(g) => g.summary case None => None;
    var actionItems := match f.generated case Some(g) => g.actionItems case None => None;
    Patch(id, None, Some(f.title), Some(f.content),
          Some(ParseList(f.participants)), Some(ParseList(f.tags)),
          None, None, Some(summary), Some(actionItems))
  }
}
