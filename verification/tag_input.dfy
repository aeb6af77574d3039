/** The tag editor (frontend/src/components/TagInput.jsx). It owns only the
    text box; every edit is reported to the parent as a complete new tag
    list, which the profile page feeds to `SkillStore.Reconcile` or stores
    in a draft field. */
module TagInput {
  import opened Base
  import opened Seqs
  import opened Text

  datatype Key = Enter | Backspace | OtherKey

  /** The outcome of a key press: the tag list reported to the parent, if
      any, and the new contents of the text box. */
  datatype KeyResult = KeyResult(emitted: Option<seq<string>>, input: string)

  /** The key handler. Enter with non-blank text appends the trimmed text
      (duplicates allowed) and clears the box; Backspace in an empty box
      pops the last tag; anything else reports nothing. */
  function KeyDown(tags: seq<string>, input: string, key: Key): (r: KeyResult)
    ensures key == Enter && !IsBlank(input) ==> r == KeyResult(Some(tags + [Trim(input)]), "")
    ensures key == Enter && IsBlank(input) ==> r == KeyResult(None, input)
    ensures key == Backspace ==> r.input == input && (r.emitted.Some? <==> input == "" && |tags| > 0)
    ensures key == Backspace && r.emitted.Some? ==> r.emitted.value == tags[..|tags| - 1]
    ensures key == OtherKey ==> r == KeyResult(None, input)
  {
    TrimEmptyIffBlank(input);
    if key == Enter && Trim(input) != "" then KeyResult(Some(tags + [Trim(input)]), "")
    else if key == Backspace && input == "" && |tags| > 0 then KeyResult(Some(tags[..|tags| - 1]), input)
    else KeyResult(None, input)
  }

  /** A tag produced by typing or pasting is never blank and never padded. */
  lemma EnteredTagIsClean(tags: seq<string>, input: string)
    requires KeyDown(tags, input, Enter).emitted.Some?
    ensures var t := KeyDown(tags, input, Enter).emitted.value[|tags|]; t != "" && IsTrimmed(t)
  {
    TrimEmptyIffBlank(input);
  }

  function TrimAll(pieces: seq<string>): (r: seq<string>)
    ensures |r| == |pieces| && forall i :: 0 <= i < |r| ==> r[i] == Trim(pieces[i])
  {
    seq(|pieces|, i requires 0 <= i < |pieces| => Trim(pieces[i]))
  }

  /** The non-empty pieces, in order, each as often as it occurs. */
  function NonEmpty(pieces: seq<string>): (r: seq<string>)
    ensures forall t :: t in r <==> t in pieces && t != ""
    ensures forall t :: multiset(r)[t] == if t != "" then multiset(pieces)[t] else 0
    ensures IsSubsequence(r, pieces)
    decreases |pieces|
  {
    if |pieces| == 0 then []
    else
      var rest := NonEmpty(pieces[1..]);
      assert pieces == [pieces[0]] + pieces[1..];
      assert multiset(pieces) == multiset{pieces[0]} + multiset(pieces[1..]);
      if pieces[0] == "" then
        assert forall t :: t in pieces && t != "" ==> t in pieces[1..];
        DropHead(rest, pieces);
        rest
      else
        assert ([pieces[0]] + rest)[1..] == rest;
        assert multiset([pieces[0]] + rest) == multiset{pieces[0]} + multiset(rest);
        [pieces[0]] + rest
  }

  /** A tag a paste can produce: non-empty, trimmed and free of commas. */
  predicate IsCleanTag(t: string) {
    t != "" && IsTrimmed(t) && ',' !in t
  }

  /** The tags a paste contributes: the clipboard text split on commas, each
      piece trimmed, empty pieces dropped. */
  function PastedTags(data: string): (r: seq<string>)
    ensures forall t :: t in r ==> IsCleanTag(t)
    ensures forall t :: t in r <==> t in TrimAll(Split(data, ',')) && t != ""
    ensures forall t :: multiset(r)[t] == if t != "" then multiset(TrimAll(Split(data, ',')))[t] else 0
    ensures IsSubsequence(r, TrimAll(Split(data, ',')))
  {
    var pieces := Split(data, ',');
    TrimAllKeepsOut(pieces, ',');
    NonEmpty(TrimAll(pieces))
  }

  /** Trimming never introduces a character that no piece had. */
  lemma TrimAllKeepsOut(pieces: seq<string>, c: char)
    requires forall p :: p in pieces ==> c !in p
    ensures forall t :: t in TrimAll(pieces) ==> c !in t
  {
    var trimmed := TrimAll(pieces);
    forall t | t in trimmed ensures c !in t {
      var i :| 0 <= i < |trimmed| && trimmed[i] == t;
      assert pieces[i] in pieces;
      TrimKeepsCharacters(pieces[i]);
    }
  }

  /** The paste handler: the pasted tags go after the existing ones. */
  function Paste(tags: seq<string>, data: string): (r: seq<string>)
    ensures IsPrefix(tags, r) && r[|tags|..] == PastedTags(data)
  {
    tags + PastedTags(data)
  }

  lemma {:induction false} NonEmptyOfNonEmpty(pieces: seq<string>)
    requires forall t :: t in pieces ==> t != ""
    ensures NonEmpty(pieces) == pieces
    decreases |pieces|
  {
    if |pieces| > 0 {
      assert pieces[0] in pieces;
      assert forall t :: t in pieces[1..] ==> t in pieces;
      NonEmptyOfNonEmpty(pieces[1..]);
    }
  }

  /** Pasting the comma-joined form of comma-free pieces yields those
      pieces trimmed, with the empty ones dropped. */
  lemma PasteOfJoin(xs: seq<string>)
    requires forall t :: t in xs ==> ',' !in t
    ensures PastedTags(Join(xs, ',')) == NonEmpty(TrimAll(xs))
  {
    var pieces := Split(Join(xs, ','), ',');
    assert PastedTags(Join(xs, ',')) == NonEmpty(TrimAll(pieces));
    if |xs| == 0 {
      assert pieces == [""];
      assert TrimAll(pieces) == [""];
      assert NonEmpty([""]) == [];
    } else {
      SplitJoin(xs, ',');
    }
  }

  /** Clean tags survive that trip unchanged: paste is the inverse of joining
      with commas. */
  lemma PasteJoinRoundTrip(xs: seq<string>)
    requires forall t :: t in xs ==> IsCleanTag(t)
    ensures PastedTags(Join(xs, ',')) == xs
  {
    PasteOfJoin(xs);
    forall i | 0 <= i < |xs| ensures Trim(xs[i]) == xs[i] {
      assert xs[i] in xs;
      TrimOfTrimmed(xs[i]);
    }
    assert TrimAll(xs) == xs;
    NonEmptyOfNonEmpty(xs);
  }

  datatype TagEvent = KeyPress(input: string, key: Key) | PasteText(data: string) | RemoveAt(index: int)

  /** The tag list an event reports to the parent, if any. */
  function Emitted(tags: seq<string>, ev: TagEvent): Option<seq<string>> {
    match ev
    case KeyPress(input, key) => KeyDown(tags, input, key).emitted
    case PasteText(data) => Some(Paste(tags, data))
    case RemoveAt(index) => Some(Without(tags, index))
  }

  /** No event reorders the existing tags: an edit either extends the list
      at its end or deletes some of its elements. */
  lemma NoEventReorders(tags: seq<string>, ev: TagEvent)
    requires Emitted(tags, ev).Some?
    ensures var r := Emitted(tags, ev).value; IsPrefix(tags, r) || IsSubsequence(r, tags)
  {
    match ev
    case KeyPress(input, key) =>
      if key == Backspace {
        assert Without(tags, |tags| - 1) == tags[..|tags| - 1];
        WithoutIsSubsequence(tags, |tags| - 1);
      }
    case PasteText(_) =>
    case RemoveAt(index) =>
      WithoutIsSubsequence(tags, index);
  }
}
