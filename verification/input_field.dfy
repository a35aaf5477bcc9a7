/** The edit field of the terminal interface (clientf/terminal_ui.cpp, `InputField`): UTF-8
    text with a byte cursor that never leaves a character boundary. */
module InputFields {
  import opened Prelude
  import opened Utf8

  const MAX_FIELD: nat := 65_536

  datatype Field = Field(text: Bytes, cursor: nat, revision: nat)

  const EMPTY_FIELD: Field := Field([], 0, 0)

  /** A cursor position between two characters. */
  predicate Boundary(text: Bytes, at: nat) {
    at <= |text| && Valid(text[..at]) && Valid(text[at..])
  }

  predicate Good(f: Field) {
    Valid(f.text) && |f.text| <= MAX_FIELD && Boundary(f.text, f.cursor)
  }

  /** Steps back over continuation bytes. */
  function PreviousBoundary(text: Bytes, cursor: nat): (p: nat)
    requires cursor <= |text|
    ensures p <= cursor && (cursor > 0 ==> p < cursor)
    ensures cursor > 0 ==> (forall i | p < i < cursor :: Tail(text[i])) && (p == 0 || !Tail(text[p]))
  {
    if cursor == 0 then 0
    else if cursor == 1 || !Tail(text[cursor - 1]) then cursor - 1
    else PreviousBoundary(text, cursor - 1)
  }

  /** Steps forward to the next byte that is no continuation. */
  function NextBoundary(text: Bytes, cursor: nat): (p: nat)
    requires cursor <= |text|
    ensures cursor <= p <= |text| && (cursor < |text| ==> cursor < p)
    ensures (forall i | cursor < i < p :: Tail(text[i])) && (p < |text| && cursor < |text| ==> !Tail(text[p]))
    decreases |text| - cursor
  {
    if cursor >= |text| then |text|
    else if cursor + 1 == |text| || !Tail(text[cursor + 1]) then cursor + 1
    else NextBoundary(text, cursor + 1)
  }

  // ----- Operations -----

  function Insert(f: Field, text: Bytes): (Field, bool)
    requires f.cursor <= |f.text| <= MAX_FIELD
  {
    if |text| > MAX_FIELD - |f.text| then (f, false)
    else (Field(f.text[..f.cursor] + text + f.text[f.cursor..], f.cursor + |text|, f.revision + 1), true)
  }

  function EraseBefore(f: Field): Field
    requires f.cursor <= |f.text|
  {
    if f.cursor == 0 then f
    else
      var p := PreviousBoundary(f.text, f.cursor);
      Field(f.text[..p] + f.text[f.cursor..], p, f.revision + 1)
  }

  function EraseAt(f: Field): Field
    requires f.cursor <= |f.text|
  {
    if f.cursor >= |f.text| then f
    else Field(f.text[..f.cursor] + f.text[NextBoundary(f.text, f.cursor)..], f.cursor, f.revision + 1)
  }

  function MoveLeft(f: Field): Field
    requires f.cursor <= |f.text|
  {
    f.(cursor := PreviousBoundary(f.text, f.cursor))
  }

  function MoveRight(f: Field): Field
    requires f.cursor <= |f.text|
  {
    f.(cursor := NextBoundary(f.text, f.cursor))
  }

  function Clear(f: Field): Field {
    if f.text == [] then f else Field([], 0, f.revision + 1)
  }

  function Replace(f: Field, text: Bytes): (Field, bool) {
    if |text| > MAX_FIELD then (f, false) else (Field(text, |text|, f.revision + 1), true)
  }

  // ----- Boundaries are the places before a lead byte -----

  lemma FirstCharacter(text: Bytes)
    requires CharLength(text) > 0
    ensures !Tail(text[0]) && forall i | 1 <= i < CharLength(text) :: Tail(text[i])
  {
    LeadTailsSecond(text);
  }

  lemma NoEarlierBoundary(text: Bytes, at: nat)
    requires 0 < at < CharLength(text)
    ensures !Valid(text[..at])
  {
    LeadTailsSecond(text[..at]);
    LeadTailsSecond(text);
  }

  /** In valid text the boundaries are the end and the places before a lead byte. */
  lemma {:induction false} BoundaryIff(text: Bytes, at: nat)
    requires Valid(text) && at <= |text|
    ensures Boundary(text, at) <==> at == 0 || at == |text| || !Tail(text[at])
    decreases |text|
  {
    hide CharLength;
    if at == 0 {
      assert text[..0] == [] && text[0..] == text;
    } else if at == |text| {
      assert text[..at] == text && text[at..] == [];
    } else {
      var n := CharLength(text);
      FirstCharacter(text);
      if at < n {
        NoEarlierBoundary(text, at);
      } else {
        var rest := text[n..];
        BoundaryIff(rest, at - n);
        assert rest[at - n..] == text[at..];
        assert text[..at] == text[..n] + rest[..at - n];
        OneCharacter(text);
        ValidConcat(text[..n], rest[..at - n]);
        if at > n {
          assert rest[at - n] == text[at];
        } else if rest != [] {
          FirstCharacter(rest);
        }
      }
    }
  }

  lemma OneCharacter(text: Bytes)
    requires CharLength(text) > 0
    ensures Valid(text[..CharLength(text)]) && CharLength(text[..CharLength(text)]) == CharLength(text)
  {
    var n := CharLength(text);
    var s := text[..n];
    assert forall i | 0 <= i < n :: s[i] == text[i];
    assert s[n..] == [];
  }

  lemma PreviousIsBoundary(text: Bytes, at: nat)
    requires Valid(text) && Boundary(text, at)
    ensures Boundary(text, PreviousBoundary(text, at))
  {
    BoundaryIff(text, PreviousBoundary(text, at));
  }

  /** Between a boundary and the next lie only continuation bytes. */
  lemma PreviousOfNext(text: Bytes, at: nat)
    requires Valid(text) && Boundary(text, at) && at < |text|
    ensures PreviousBoundary(text, NextBoundary(text, at)) == at
  {
    BoundaryIff(text, at);
    BackTo(text, at, NextBoundary(text, at));
  }

  lemma {:induction false} BackTo(text: Bytes, at: nat, from: nat)
    requires at < from <= |text| && (forall i | at < i < from :: Tail(text[i])) && (at == 0 || !Tail(text[at]))
    ensures PreviousBoundary(text, from) == at
    decreases from
  {
    if from > at + 1 { BackTo(text, at, from - 1); }
  }

  lemma NextOfPrevious(text: Bytes, at: nat)
    requires Valid(text) && Boundary(text, at) && at > 0
    ensures NextBoundary(text, PreviousBoundary(text, at)) == at
  {
    BoundaryIff(text, at);
    ForwardTo(text, PreviousBoundary(text, at), at);
  }

  lemma {:induction false} ForwardTo(text: Bytes, from: nat, at: nat)
    requires from < at <= |text| && (forall i | from < i < at :: Tail(text[i])) && (at == |text| || !Tail(text[at]))
    ensures NextBoundary(text, from) == at
    decreases at - from
  {
    if from + 1 < at { ForwardTo(text, from + 1, at); }
  }

  lemma TailsAfter(text: Bytes, at: nat)
    requires at < |text| && CharLength(text[at..]) > 0
    ensures forall i | at < i < at + CharLength(text[at..]) :: Tail(text[i])
  {
    var rest := text[at..];
    FirstCharacter(rest);
    hide CharLength, Tail;
    forall i | at < i < at + CharLength(rest)
      ensures Tail(text[i])
    {
      assert rest[i - at] == text[i];
    }
  }

  /** The next boundary is one character further. */
  lemma NextIsOneCharacter(text: Bytes, at: nat)
    requires Valid(text) && Boundary(text, at) && at < |text|
    ensures NextBoundary(text, at) == at + CharLength(text[at..])
    ensures Boundary(text, NextBoundary(text, at))
  {
    hide CharLength, Tail, Valid, NextBoundary, Boundary;
    var n := CharLength(text[at..]);
    LeadAfter(text, at);
    TailsAfter(text, at);
    ForwardTo(text, at, at + n);
    BoundaryIff(text, at + n);
  }

  lemma LeadAfter(text: Bytes, at: nat)
    requires Boundary(text, at) && at < |text|
    ensures var n := CharLength(text[at..]);
      n > 0 && at + n <= |text| && (at + n < |text| ==> !Tail(text[at + n]))
  {
    hide CharLength, Tail;
    var rest := text[at..];
    var n := CharLength(rest);
    if at + n < |text| {
      assert rest[n..][0] == text[at + n];
      LeadOfValid(rest[n..]);
    }
  }

  lemma LeadOfValid(text: Bytes)
    requires Valid(text) && text != []
    ensures !Tail(text[0])
  {
    FirstCharacter(text);
  }

  // ----- What every operation keeps -----

  lemma CutValid(text: Bytes, from: nat, to: nat)
    requires Boundary(text, from) && Boundary(text, to) && from <= to
    ensures Valid(text[..from] + text[to..])
  {
    ValidConcat(text[..from], text[to..]);
  }

  lemma JoinBoundary(a: Bytes, b: Bytes)
    requires Valid(a) && Valid(b)
    ensures Valid(a + b) && Boundary(a + b, |a|)
  {
    ValidConcat(a, b);
    assert (a + b)[..|a|] == a && (a + b)[|a|..] == b;
  }

  /** Inserting or replacing valid text, erasing and moving keep the text valid, within its
      limit, and the cursor on a boundary. */
  lemma EditsKeepGood(f: Field, text: Bytes)
    requires Good(f) && Valid(text)
    ensures Good(Insert(f, text).0) && Good(Replace(f, text).0) && Good(Clear(f))
    ensures Good(EraseBefore(f)) && Good(EraseAt(f)) && Good(MoveLeft(f)) && Good(MoveRight(f))
    ensures Good(f.(cursor := 0)) && Good(f.(cursor := |f.text|))
  {
    hide Good, Insert, Replace, Clear, EraseBefore, EraseAt, MoveLeft, MoveRight, Valid;
    InsertKeeps(f, text);
    ReplacingKeepsGood(f, text);
    MovingKeepsGood(f);
    EraseBeforeKeepsGood(f);
    EraseAtKeepsGood(f);
  }

  lemma ReplacingKeepsGood(f: Field, text: Bytes)
    requires Good(f) && Valid(text)
    ensures Good(Replace(f, text).0) && Good(Clear(f))
    ensures Good(f.(cursor := 0)) && Good(f.(cursor := |f.text|))
  {
    hide Valid, CharLength;
    WholeBoundaries(text);
    WholeBoundaries(f.text);
    EmptyValid();
    WholeBoundaries([]);
  }

  lemma MovingKeepsGood(f: Field)
    requires Good(f)
    ensures Good(MoveLeft(f)) && Good(MoveRight(f))
  {
    hide Valid, CharLength, PreviousBoundary, NextBoundary;
    PreviousIsBoundary(f.text, f.cursor);
    if f.cursor < |f.text| {
      NextIsOneCharacter(f.text, f.cursor);
    }
  }

  lemma EraseBeforeKeepsGood(f: Field)
    requires Good(f)
    ensures Good(EraseBefore(f))
  {
    hide Valid, CharLength, PreviousBoundary;
    PreviousIsBoundary(f.text, f.cursor);
    var p := PreviousBoundary(f.text, f.cursor);
    CutValid(f.text, p, f.cursor);
    JoinBoundary(f.text[..p], f.text[f.cursor..]);
  }

  lemma EraseAtKeepsGood(f: Field)
    requires Good(f)
    ensures Good(EraseAt(f))
  {
    hide Valid, CharLength, NextBoundary;
    if f.cursor < |f.text| {
      NextIsOneCharacter(f.text, f.cursor);
      var n := NextBoundary(f.text, f.cursor);
      CutValid(f.text, f.cursor, n);
      JoinBoundary(f.text[..f.cursor], f.text[n..]);
    }
  }

  lemma EmptyValid()
    ensures Valid([])
  {
  }

  lemma WholeBoundaries(text: Bytes)
    requires Valid(text)
    ensures Boundary(text, 0) && Boundary(text, |text|)
  {
    assert text[..0] == [] && text[0..] == text && text[..|text|] == text && text[|text|..] == [];
  }

  lemma InsertKeeps(f: Field, text: Bytes)
    requires Good(f) && Valid(text)
    ensures Good(Insert(f, text).0)
  {
    hide CharLength;
    var before, after := f.text[..f.cursor], f.text[f.cursor..];
    JoinBoundary(before, text);
    JoinBoundary(before + text, after);
  }

  // ----- What one operation undoes of another -----

  lemma BoundaryInside(before: Bytes, text: Bytes, after: Bytes)
    requires Valid(before) && Valid(text) && Valid(after)
    ensures var all := before + text + after;
      Valid(all) && Boundary(all, |before|) && all[|before|..] == text + after
  {
    hide Valid, CharLength;
    JoinBoundary(text, after);
    JoinBoundary(before, text + after);
    assert before + (text + after) == before + text + after;
  }

  /** A character stands between two neighbouring boundaries. */
  lemma CharacterInside(before: Bytes, character: Bytes, after: Bytes)
    requires Valid(before) && Valid(after) && character != [] && CharLength(character) == |character|
    ensures var all := before + character + after;
      PreviousBoundary(all, |before| + |character|) == |before|
  {
    var all := before + character + after;
    OneCharacter(character);
    assert character[..|character|] == character;
    CharLengthPrefix(character, after);
    hide Valid, CharLength;
    BoundaryInside(before, character, after);
    NextIsOneCharacter(all, |before|);
    PreviousOfNext(all, |before|);
  }

  /** Erasing before the cursor undoes the insertion of one character. */
  lemma EraseUndoesInsert(f: Field, character: Bytes)
    requires Good(f) && character != [] && CharLength(character) == |character|
    requires |character| <= MAX_FIELD - |f.text|
    ensures var g := EraseBefore(Insert(f, character).0);
      g.text == f.text && g.cursor == f.cursor
  {
    hide Valid, CharLength, PreviousBoundary;
    var before, after := f.text[..f.cursor], f.text[f.cursor..];
    CharacterInside(before, character, after);
    var all := before + character + after;
    assert all[..|before|] == before && all[|before| + |character|..] == after;
    assert before + after == f.text;
  }

  /** Moving left undoes moving right unless the cursor is at the end, and the other way
      round unless it is at the start. */
  lemma MovesUndoEachOther(f: Field)
    requires Good(f)
    ensures MoveLeft(MoveRight(f)) == f <==> f.cursor < |f.text| || f.text == []
    ensures MoveRight(MoveLeft(f)) == f <==> f.cursor > 0 || f.text == []
  {
    hide Valid, CharLength;
    if f.cursor < |f.text| { PreviousOfNext(f.text, f.cursor); }
    if f.cursor > 0 { NextOfPrevious(f.text, f.cursor); }
  }

  /** Erasing at the cursor is moving right and erasing before it. */
  lemma EraseAtIsMoveAndErase(f: Field)
    requires Good(f) && f.cursor < |f.text|
    ensures EraseBefore(MoveRight(f)) == EraseAt(f)
  {
    hide Valid, CharLength;
    PreviousOfNext(f.text, f.cursor);
  }

  // ----- Runs -----

  datatype Edit =
    | InsertText(text: Bytes)
    | ReplaceText(text: Bytes)
    | ClearText
    | EraseOneBefore
    | EraseOneAt
    | Left
    | Right
    | Home
    | End

  predicate ValidEdit(e: Edit) {
    (e.InsertText? ==> Valid(e.text)) && (e.ReplaceText? ==> Valid(e.text))
  }

  function Apply(f: Field, e: Edit): Field
    requires Good(f)
  {
    match e
    case InsertText(text) => Insert(f, text).0
    case ReplaceText(text) => Replace(f, text).0
    case ClearText => Clear(f)
    case EraseOneBefore => EraseBefore(f)
    case EraseOneAt => EraseAt(f)
    case Left => MoveLeft(f)
    case Right => MoveRight(f)
    case Home => f.(cursor := 0)
    case End => f.(cursor := |f.text|)
  }

  lemma ApplyKeeps(f: Field, e: Edit)
    requires Good(f) && ValidEdit(e)
    ensures Good(Apply(f, e))
    ensures f.revision <= Apply(f, e).revision
    ensures Apply(f, e).revision == f.revision ==> Apply(f, e).text == f.text
  {
    EmptyValid();
    EditsKeepGood(f, if e.InsertText? || e.ReplaceText? then e.text else []);
    hide Good, ValidEdit;
  }

  function ApplyAll(f: Field, edits: seq<Edit>): (g: Field)
    requires Good(f) && forall e | e in edits :: ValidEdit(e)
    ensures Good(g)
    decreases |edits|
  {
    if edits == [] then f
    else
      assert edits[0] in edits;
      ApplyKeeps(f, edits[0]);
      ApplyAll(Apply(f, edits[0]), edits[1..])
  }

  /** After any edits of valid text the field is valid UTF-8 within its limit with the cursor
      on a boundary; and an unchanged revision means unchanged text: that is how an accepted
      message knows whether its draft has been edited since. */
  lemma {:induction false} EditingIsSafe(f: Field, edits: seq<Edit>)
    requires Good(f) && forall e | e in edits :: ValidEdit(e)
    ensures var g := ApplyAll(f, edits);
      && Valid(g.text) && |g.text| <= MAX_FIELD && Boundary(g.text, g.cursor)
      && f.revision <= g.revision && (g.revision == f.revision ==> g.text == f.text)
    decreases |edits|
  {
    hide Apply, ValidEdit, Valid;
    if edits != [] {
      assert edits[0] in edits;
      ApplyKeeps(f, edits[0]);
      EditingIsSafe(Apply(f, edits[0]), edits[1..]);
    }
  }

  // ----- The field in place -----

  class InputField {
    var bytes: Bytes
    var byteCursor: nat
    var editRevision: nat

    function State(): Field
      reads this
    {
      Field(bytes, byteCursor, editRevision)
    }

    predicate InRange()
      reads this
    {
      byteCursor <= |bytes| <= MAX_FIELD
    }

    constructor ()
      ensures State() == EMPTY_FIELD && InRange()
    {
      bytes, byteCursor, editRevision := [], 0, 0;
    }

    method InsertText(text: Bytes) returns (inserted: bool)
      requires InRange()
      modifies this
      ensures InRange() && (State(), inserted) == Insert(old(State()), text)
    {
      if |text| > MAX_FIELD - |bytes| {
        return false;
      }
      bytes := bytes[..byteCursor] + text + bytes[byteCursor..];
      byteCursor := byteCursor + |text|;
      editRevision := editRevision + 1;
      return true;
    }

    method FindPrevious() returns (previous: nat)
      requires InRange()
      ensures previous == PreviousBoundary(bytes, byteCursor)
    {
      if byteCursor == 0 {
        return 0;
      }
      previous := byteCursor - 1;
      while previous > 0 && bytes[previous] & 0xC0 == 0x80
        invariant previous < byteCursor
        invariant PreviousBoundary(bytes, byteCursor) ==
                  if previous > 0 && Tail(bytes[previous]) then PreviousBoundary(bytes, previous) else previous
      {
        TailIsMask(bytes[previous]);
        previous := previous - 1;
      }
      TailIsMask(bytes[previous]);
    }

    method FindNext() returns (next: nat)
      requires InRange()
      ensures next == NextBoundary(bytes, byteCursor)
    {
      if byteCursor >= |bytes| {
        return |bytes|;
      }
      next := byteCursor + 1;
      while next < |bytes| && bytes[next] & 0xC0 == 0x80
        invariant byteCursor < next <= |bytes|
        invariant NextBoundary(bytes, byteCursor) ==
                  if next < |bytes| && Tail(bytes[next]) then NextBoundary(bytes, next) else next
      {
        TailIsMask(bytes[next]);
        next := next + 1;
      }
      if next < |bytes| {
        TailIsMask(bytes[next]);
      }
    }

    method EraseBeforeCursor() returns (changed: bool)
      requires InRange()
      modifies this
      ensures InRange() && State() == EraseBefore(old(State())) && changed == (old(byteCursor) > 0)
    {
      if byteCursor == 0 {
        return false;
      }
      var previous := FindPrevious();
      bytes := bytes[..previous] + bytes[byteCursor..];
      byteCursor := previous;
      editRevision := editRevision + 1;
      return true;
    }

    method EraseAtCursor() returns (changed: bool)
      requires InRange()
      modifies this
      ensures InRange() && State() == EraseAt(old(State())) && changed == (old(byteCursor) < |old(bytes)|)
    {
      if byteCursor >= |bytes| {
        return false;
      }
      var next := FindNext();
      bytes := bytes[..byteCursor] + bytes[next..];
      editRevision := editRevision + 1;
      return true;
    }

    method GoLeft() returns (moved: bool)
      requires InRange()
      modifies this`byteCursor
      ensures InRange() && State() == MoveLeft(old(State())) && moved == (byteCursor != old(byteCursor))
    {
      var previous := FindPrevious();
      moved := previous != byteCursor;
      byteCursor := previous;
    }

    method GoRight() returns (moved: bool)
      requires InRange()
      modifies this`byteCursor
      ensures InRange() && State() == MoveRight(old(State())) && moved == (byteCursor != old(byteCursor))
    {
      var next := FindNext();
      moved := next != byteCursor;
      byteCursor := next;
    }

    method ClearText()
      requires InRange()
      modifies this
      ensures InRange() && State() == Clear(old(State()))
    {
      if bytes != [] {
        bytes := [];
        byteCursor := 0;
        editRevision := editRevision + 1;
      }
    }

    method ReplaceText(text: Bytes) returns (replaced: bool)
      requires InRange()
      modifies this
      ensures InRange() && (State(), replaced) == Replace(old(State()), text)
    {
      if |text| > MAX_FIELD {
        return false;
      }
      bytes := text;
      byteCursor := |text|;
      editRevision := editRevision + 1;
      return true;
    }
  }

  // ----- Where the text goes -----

  /** Inserted text stands between what was before the cursor and what was behind it, with the
      cursor behind it; text that does not fit changes nothing. */
  lemma InsertedAtCursor(f: Field, text: Bytes)
    requires f.cursor <= |f.text| <= MAX_FIELD
    ensures var (g, ok) := Insert(f, text);
      && (ok <==> |f.text| + |text| <= MAX_FIELD)
      && (ok ==>
            && g.text[..f.cursor] == f.text[..f.cursor] && f.cursor <= g.cursor <= |g.text|
            && g.text[f.cursor..g.cursor] == text && g.text[g.cursor..] == f.text[f.cursor..]
            && g.revision == f.revision + 1)
      && (!ok ==> g == f)
  {
  }

  /** Erasing takes away exactly the character before or at the cursor and nothing else. */
  lemma ErasedIsOneCharacter(f: Field)
    requires Good(f)
    ensures f.cursor > 0 ==>
      var g := EraseBefore(f);
      && g.cursor < f.cursor && g.cursor + CharLength(f.text[g.cursor..]) == f.cursor
      && g.text == f.text[..g.cursor] + f.text[f.cursor..] && g.revision == f.revision + 1
    ensures f.cursor < |f.text| ==>
      var g, n := EraseAt(f), CharLength(f.text[f.cursor..]);
      && 0 < n && f.cursor + n <= |f.text|
      && g.cursor == f.cursor && g.text == f.text[..f.cursor] + f.text[f.cursor + n..] && g.revision == f.revision + 1
    ensures (f.cursor == 0 ==> EraseBefore(f) == f) && (f.cursor == |f.text| ==> EraseAt(f) == f)
  {
    hide Good, Valid, CharLength, EraseBefore, EraseAt;
    if f.cursor > 0 { ErasedBefore(f); }
    if f.cursor < |f.text| { ErasedAt(f); }
    assert f.cursor == 0 ==> EraseBefore(f) == f by { NothingToErase(f); }
    assert f.cursor == |f.text| ==> EraseAt(f) == f by { NothingToErase(f); }
  }

  lemma NothingToErase(f: Field)
    requires Good(f)
    ensures (f.cursor == 0 ==> EraseBefore(f) == f) && (f.cursor == |f.text| ==> EraseAt(f) == f)
  {
  }

  lemma ErasedBefore(f: Field)
    requires Good(f) && f.cursor > 0
    ensures var g := EraseBefore(f);
      && g.cursor < f.cursor && g.cursor + CharLength(f.text[g.cursor..]) == f.cursor
      && g.text == f.text[..g.cursor] + f.text[f.cursor..] && g.revision == f.revision + 1
  {
    hide Valid, CharLength, PreviousBoundary, NextBoundary;
    var p := PreviousBoundary(f.text, f.cursor);
    PreviousIsBoundary(f.text, f.cursor);
    NextOfPrevious(f.text, f.cursor);
    NextIsOneCharacter(f.text, p);
  }

  lemma ErasedAt(f: Field)
    requires Good(f) && f.cursor < |f.text|
    ensures var g, n := EraseAt(f), CharLength(f.text[f.cursor..]);
      && 0 < n && f.cursor + n <= |f.text|
      && g.cursor == f.cursor && g.text == f.text[..f.cursor] + f.text[f.cursor + n..] && g.revision == f.revision + 1
  {
    hide Valid, CharLength, NextBoundary;
    LeadAfter(f.text, f.cursor);
    NextIsOneCharacter(f.text, f.cursor);
  }

  /** Replacing and clearing put the cursor at the end of the new text and count as an edit;
      a replacement that is too long, and clearing what is empty, change nothing. */
  lemma ReplacedWhole(f: Field, text: Bytes)
    ensures var (g, ok) := Replace(f, text);
      && (ok <==> |text| <= MAX_FIELD)
      && g == (if ok then Field(text, |text|, f.revision + 1) else f)
    ensures Clear(f) == (if f.text == [] then f else Replace(f, []).0)
  {
  }
}
