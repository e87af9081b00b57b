// Domain names on the wire: section 4.1.4 of RFC 1035 as the program reads it.
module DnsNames {
  import opened Wrappers
  import opened Sequences
  import opened Text

  type byte = b: int | 0 <= b < 256

  /** Everything that makes the name reader raise ValueError. */
  datatype NameError = PrematureEnd | PrematurePointer | LabelTooLong | LoopDetected

  /** The written form of a name: what the bytes at some offset spell out. `Broken` is a form that
      runs into malformed bytes; a compression loop spells no form at all. */
  datatype WireName =
    | Root
    | Label(text: string, rest: WireName)
    | Pointer(target: nat, rest: WireName)
    | Broken(error: NameError)

  /** Undecodable bytes become U+FFFD, then the label is lower-cased. */
  function DecodeLabel(raw: seq<byte>): (text: string)
    ensures |text| == |raw|
  {
    Lower(seq(|raw|, i requires 0 <= i < |raw| => if raw[i] < 128 then raw[i] as char else '\U{FFFD}'))
  }

  /** Length bytes 0x40 to 0xBF, reserved in the RFC, are read as plain lengths. */
  predicate IsPointerByte(b: byte) {
    b >= 0xC0
  }

  function PointerTarget(hi: byte, lo: byte): (target: nat)
    ensures target < 0x4000
  {
    ((hi as int) * 256 + lo) % 0x4000
  }

  ghost predicate IsTarget(p: nat) {
    p < 0x4000
  }

  ghost function PointerTargets(): set<nat> {
    set p: nat | p < 0x4000 && IsTarget(p)
  }

  /** The bytes of `data` from offset `at` spell the form `w`. */
  predicate Spells(data: seq<byte>, at: nat, w: WireName)
    decreases w
  {
    match w
    case Root =>
      at < |data| && data[at] == 0
    case Label(text, rest) =>
      && at < |data| && 0 < data[at] && !IsPointerByte(data[at])
      && at + 1 + data[at] <= |data|
      && text == DecodeLabel(data[at + 1..at + 1 + data[at]])
      && Spells(data, at + 1 + data[at], rest)
    case Pointer(target, rest) =>
      && at + 1 < |data| && IsPointerByte(data[at])
      && target == PointerTarget(data[at], data[at + 1])
      && Spells(data, target, rest)
    case Broken(error) =>
      if at >= |data| then error == PrematureEnd
      else if IsPointerByte(data[at]) then at + 2 > |data| && error == PrematurePointer
      else data[at] > 0 && at + 1 + data[at] > |data| && error == LabelTooLong
  }

  function Labels(w: WireName): seq<string> {
    match w
    case Root => []
    case Label(text, rest) => [text] + Labels(rest)
    case Pointer(_, rest) => Labels(rest)
    case Broken(_) => []
  }

  /** Where the name ends in the record: behind the root byte or behind the first pointer. */
  function EndOf(at: nat, w: WireName): nat
    decreases w
  {
    match w
    case Root => at + 1
    case Label(text, rest) => EndOf(at + 1 + |text|, rest)
    case Pointer(_, _) => at + 2
    case Broken(_) => at
  }

  function Outcome(at: nat, w: WireName): Result<(string, nat), NameError> {
    match Defect(w)
    case Some(error) => Failure(error)
    case None => Success((Join(Labels(w), '.'), EndOf(at, w)))
  }

  function Defect(w: WireName): Option<NameError> {
    match w
    case Root => None
    case Label(_, rest) => Defect(rest)
    case Pointer(_, rest) => Defect(rest)
    case Broken(error) => Some(error)
  }

  function Size(w: WireName): nat {
    match w
    case Root => 0
    case Label(_, rest) => 1 + Size(rest)
    case Pointer(_, rest) => 1 + Size(rest)
    case Broken(_) => 0
  }

  ghost predicate HasForm(data: seq<byte>, at: nat) {
    exists w :: Spells(data, at, w)
  }

  ghost function FormAt(data: seq<byte>, at: nat): (w: WireName)
    requires HasForm(data, at)
    ensures Spells(data, at, w)
  {
    var w :| Spells(data, at, w); w
  }

  /** What reading a name at `at` means: the outcome of the one form spelled there, or a loop. */
  ghost function NameAt(data: seq<byte>, at: nat): Result<(string, nat), NameError> {
    if HasForm(data, at) then Outcome(at, FormAt(data, at)) else Failure(LoopDetected)
  }

  /** The bytes at an offset spell at most one form. */
  lemma {:induction false} FormUnique(data: seq<byte>, at: nat, v: WireName, w: WireName)
    requires Spells(data, at, v) && Spells(data, at, w)
    ensures v == w
    decreases v
  {
    match v
    case Root =>
    case Broken(_) =>
    case Label(_, rest) => FormUnique(data, at + 1 + data[at], rest, w.rest);
    case Pointer(target, rest) => FormUnique(data, target, rest, w.rest);
  }

  /** A known form decides the reading. */
  lemma NameAtForm(data: seq<byte>, at: nat, w: WireName)
    requires Spells(data, at, w)
    ensures HasForm(data, at) && FormAt(data, at) == w
    ensures NameAt(data, at) == Outcome(at, w)
  {
    FormUnique(data, at, FormAt(data, at), w);
  }

  lemma LabelStep(data: seq<byte>, at: nat)
    requires at < |data| && 0 < data[at] && !IsPointerByte(data[at]) && at + 1 + data[at] <= |data|
    ensures var next := at + 1 + data[at];
            && (HasForm(data, at) <==> HasForm(data, next))
            && (HasForm(data, at) ==>
                  FormAt(data, at) == Label(DecodeLabel(data[at + 1..next]), FormAt(data, next)))
  {
    var next := at + 1 + data[at];
    if HasForm(data, next) {
      NameAtForm(data, at, Label(DecodeLabel(data[at + 1..next]), FormAt(data, next)));
    }
    if HasForm(data, at) {
      assert Spells(data, next, FormAt(data, at).rest);
    }
  }

  lemma PointerStep(data: seq<byte>, at: nat)
    requires at + 1 < |data| && IsPointerByte(data[at])
    ensures var target := PointerTarget(data[at], data[at + 1]);
            && (HasForm(data, at) <==> HasForm(data, target))
            && (HasForm(data, at) ==> FormAt(data, at) == Pointer(target, FormAt(data, target)))
  {
    var target := PointerTarget(data[at], data[at + 1]);
    if HasForm(data, target) {
      NameAtForm(data, at, Pointer(target, FormAt(data, target)));
    }
    if HasForm(data, at) {
      assert Spells(data, target, FormAt(data, at).rest);
    }
  }

  /** What a half-finished reading still owes: the outcome at `offset` is the labels collected so
      far followed by those of the form at `current`. */
  ghost predicate Pending(data: seq<byte>, offset: nat, labels: seq<string>, current: nat, jumpedFrom: int) {
    && (HasForm(data, offset) <==> HasForm(data, current))
    && (HasForm(data, offset) ==>
          var whole, left := FormAt(data, offset), FormAt(data, current);
          && Labels(whole) == labels + Labels(left)
          && Defect(whole) == Defect(left)
          && (Defect(whole).None? ==>
                EndOf(offset, whole) == if jumpedFrom == -1 then EndOf(current, left) else jumpedFrom))
  }

  /** Every pointer target followed so far spells a form at least as large as what is left. */
  ghost predicate Shrinking(data: seq<byte>, visited: set<nat>, current: nat) {
    HasForm(data, current) ==>
      forall p :: p in visited ==> HasForm(data, p) && Size(FormAt(data, current)) <= Size(FormAt(data, p))
  }

  lemma BrokenHere(data: seq<byte>, at: nat, error: NameError)
    requires Spells(data, at, Broken(error))
    ensures HasForm(data, at) && FormAt(data, at) == Broken(error)
  {
    NameAtForm(data, at, Broken(error));
  }

  /** A jump goes on with what is left, and cannot lead to a target already visited. */
  lemma JumpKeeps(data: seq<byte>, offset: nat, labels: seq<string>, visited: set<nat>, current: nat, jumpedFrom: int)
    requires current + 1 < |data| && IsPointerByte(data[current])
    requires Pending(data, offset, labels, current, jumpedFrom) && Shrinking(data, visited, current)
    ensures var target := PointerTarget(data[current], data[current + 1]);
            && Pending(data, offset, labels, target, if jumpedFrom == -1 then current + 2 else jumpedFrom)
            && Shrinking(data, visited + {target}, target)
            && (target in visited ==> !HasForm(data, offset))
  {
    PointerStep(data, current);
  }

  lemma LabelKeeps(data: seq<byte>, offset: nat, labels: seq<string>, visited: set<nat>, current: nat, jumpedFrom: int)
    requires current < |data| && 0 < data[current] && !IsPointerByte(data[current]) && current + 1 + data[current] <= |data|
    requires Pending(data, offset, labels, current, jumpedFrom) && Shrinking(data, visited, current)
    ensures var next := current + 1 + data[current];
            && Pending(data, offset, labels + [DecodeLabel(data[current + 1..next])], next, jumpedFrom)
            && Shrinking(data, visited, next)
  {
    LabelStep(data, current);
  }

  /** The name reader. It terminates because every jump uses up one of the 2^14 pointer targets and
      every label uses up bytes; it returns exactly what the declarative reading says. */
  method ReadName(data: seq<byte>, offset: nat) returns (r: Result<(string, nat), NameError>)
    ensures r == NameAt(data, offset)
  {
    var labels: seq<string> := [];
    var visited: set<nat> := {};
    var current: nat := offset;
    var originalOffset := -1;
    while true
      invariant originalOffset >= -1
      invariant Pending(data, offset, labels, current, originalOffset)
      invariant Shrinking(data, visited, current)
      decreases PointerTargets() - visited, |data| - current
    {
      if current >= |data| {
        BrokenHere(data, current, PrematureEnd);
        return Failure(PrematureEnd);
      }
      var length := data[current];
      if IsPointerByte(length) {
        if current + 2 > |data| {
          BrokenHere(data, current, PrematurePointer);
          return Failure(PrematurePointer);
        }
        var pointer := PointerTarget(data[current], data[current + 1]);
        JumpKeeps(data, offset, labels, visited, current, originalOffset);
        if pointer in visited {
          return Failure(LoopDetected);
        }
        assert IsTarget(pointer);
        visited := visited + {pointer};
        if originalOffset == -1 {
          originalOffset := current + 2;
        }
        current := pointer;
      } else if length == 0 {
        NameAtForm(data, current, Root);
        assert labels + [] == labels;
        current := current + 1;
        break;
      } else {
        if current + 1 + length > |data| {
          BrokenHere(data, current, LabelTooLong);
          return Failure(LabelTooLong);
        }
        LabelKeeps(data, offset, labels, visited, current, originalOffset);
        labels := labels + [DecodeLabel(data[current + 1..current + 1 + length])];
        current := current + 1 + length;
      }
    }
    return Success((Join(labels, '.'), if originalOffset != -1 then originalOffset else current));
  }

  lemma {:induction false} DefectIsNoLoop(data: seq<byte>, at: nat, w: WireName)
    requires Spells(data, at, w)
    ensures Defect(w) != Some(LoopDetected)
    ensures Defect(w).None? ==> at < EndOf(at, w) <= |data|
    decreases w
  {
    match w
    case Root =>
    case Broken(_) =>
    case Label(text, rest) => DefectIsNoLoop(data, at + 1 + |text|, rest);
    case Pointer(target, rest) => DefectIsNoLoop(data, target, rest);
  }

  /** The declarative reading: a finite, well-formed form at `at` yields this name and end. */
  ghost predicate ReadsAs(data: seq<byte>, at: nat, name: string, end: nat) {
    exists w :: Spells(data, at, w) && Defect(w).None? && name == Join(Labels(w), '.') && end == EndOf(at, w)
  }

  /** Sound and complete: a name and an end are returned exactly when the bytes read that way. */
  lemma NameAtExact(data: seq<byte>, at: nat, name: string, end: nat)
    ensures NameAt(data, at) == Success((name, end)) <==> ReadsAs(data, at, name, end)
  {
    if NameAt(data, at) == Success((name, end)) {
      var w := FormAt(data, at);
      assert Spells(data, at, w) && Defect(w).None? && name == Join(Labels(w), '.') && end == EndOf(at, w);
    }
    if ReadsAs(data, at, name, end) {
      var w :| Spells(data, at, w) && Defect(w).None? && name == Join(Labels(w), '.') && end == EndOf(at, w);
      NameAtForm(data, at, w);
    }
  }

  /** "Loop detected" is raised exactly when the bytes spell no finite form, malformed ones included. */
  lemma LoopExact(data: seq<byte>, at: nat)
    ensures NameAt(data, at) == Failure(LoopDetected) <==> !HasForm(data, at)
  {
    if HasForm(data, at) {
      DefectIsNoLoop(data, at, FormAt(data, at));
    }
  }

  /** A compression pointer, told by its two bytes: the 14 bits behind the two highest are an offset
      from the start of the packet, and the name is the one that stands there. Only the end differs. */
  lemma PointerReads(data: seq<byte>, at: nat, offset: nat)
    requires offset < 0x4000 && at + 1 < |data|
    requires data[at] as int == 0xC0 + offset / 256 && data[at + 1] as int == offset % 256
    ensures NameAt(data, at) ==
            match NameAt(data, offset)
            case Success((name, _)) => Success((name, at + 2))
            case Failure(error) => Failure(error)
  {
    PointerStep(data, at);
    PointerOffset(data[at], data[at + 1], offset);
  }

  lemma PointerOffset(hi: byte, lo: byte, offset: nat)
    requires offset < 0x4000 && hi as int == 0xC0 + offset / 256 && lo as int == offset % 256
    ensures PointerTarget(hi, lo) == offset
  {
    assert (hi as int) * 256 + lo == 3 * 0x4000 + offset;
  }

  /** Undecodable bytes, and only they, make a name that is not ASCII. */
  lemma DecodedIsAscii(raw: seq<byte>)
    ensures IsAscii(DecodeLabel(raw)) <==> forall i :: 0 <= i < |raw| ==> raw[i] < 128
  {
    var text := DecodeLabel(raw);
    assert forall i :: 0 <= i < |raw| && raw[i] >= 128 ==> (text[i] as int) >= 128;
  }

  lemma NameAtBounds(data: seq<byte>, at: nat)
    ensures NameAt(data, at).Success? ==> at < NameAt(data, at).value.1 <= |data|
  {
    if HasForm(data, at) {
      DefectIsNoLoop(data, at, FormAt(data, at));
    }
  }

  /** The end of a name depends only on its bytes up to the first pointer. */
  lemma {:induction false} EndIsLocal(data: seq<byte>, other: seq<byte>, at: nat, w: WireName, v: WireName)
    requires Spells(data, at, w) && Spells(other, at, v) && Defect(w).None?
    requires EndOf(at, w) <= |data| && EndOf(at, w) <= |other|
    requires data[..EndOf(at, w)] == other[..EndOf(at, w)]
    ensures EndOf(at, v) == EndOf(at, w)
    decreases w
  {
    DefectIsNoLoop(data, at, w);
    var prefix := data[..EndOf(at, w)];
    assert data[at] == prefix[at] == other[at];
    match w
    case Root =>
    case Pointer(_, _) =>
    case Label(text, rest) =>
      DefectIsNoLoop(data, at + 1 + |text|, rest);
      EndIsLocal(data, other, at + 1 + |text|, rest, v.rest);
  }
}
