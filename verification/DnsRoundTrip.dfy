// What the serializer writes, the parser reads back: exactly when, and for which messages.
module DnsRoundTrip {
  import opened Wrappers
  import opened Sequences
  import opened Text
  import opened DnsNames
  import opened DnsMessage

  /** A name that survives the wire: no dots at the ends, no empty label, only lower-case ASCII, and
      no label long enough for its length byte to look like a compression pointer. */
  predicate CanonicalName(name: string) {
    && Trimmed(name, {'.'})
    && forall i :: 0 <= i < |Split(name, '.')| ==> CanonicalLabel(Split(name, '.')[i])
  }

  predicate CanonicalLabel(text: string) {
    PlainLabel(text) && IsLower(text)
  }

  predicate PlainLabel(text: string) {
    IsAscii(text) && 0 < |text| < 0xC0
  }

  predicate CanonicalQuestions(qs: seq<DNSQuestion>) {
    forall i :: 0 <= i < |qs| ==> CanonicalName(qs[i].qname)
  }

  predicate CanonicalRecords(rrs: seq<DNSRecord>) {
    forall i :: 0 <= i < |rrs| ==> CanonicalName(rrs[i].name)
  }

  predicate CanonicalNames(m: DNSMessage) {
    && CanonicalQuestions(m.questions) && CanonicalRecords(m.answers)
    && CanonicalRecords(m.authorities) && CanonicalRecords(m.additionals)
  }

  predicate FlagsInRange(m: DNSMessage) {
    && 0 <= m.qr < 2 && 0 <= m.opcode < 16 && 0 <= m.aa < 2 && 0 <= m.tc < 2
    && 0 <= m.rd < 2 && 0 <= m.ra < 2 && 0 <= m.z < 8 && 0 <= m.rcode < 16
  }

  /** `data` contains `bytes` at offset `at`. */
  predicate Holds(data: seq<byte>, at: nat, bytes: seq<byte>) {
    at + |bytes| <= |data| && data[at..at + |bytes|] == bytes
  }

  lemma HoldsConcat(data: seq<byte>, at: nat, x: seq<byte>, y: seq<byte>)
    ensures Holds(data, at, x + y) <==> Holds(data, at, x) && Holds(data, at + |x|, y)
  {
    if at + |x| + |y| <= |data| {
      var z := data[at..at + |x + y|];
      assert z[..|x|] == data[at..at + |x|];
      assert z[|x|..] == data[at + |x|..at + |x| + |y|];
      if Holds(data, at, x + y) {
        assert (x + y)[..|x|] == x && (x + y)[|x|..] == y;
      }
      if Holds(data, at, x) && Holds(data, at + |x|, y) {
        assert z == z[..|x|] + z[|x|..];
      }
    }
  }

  // ---------------------------------------------------------------- one name

  /** The uncompressed form of a list of labels. */
  function PlainForm(labels: seq<string>): WireName {
    if labels == [] then Root else Label(Lower(labels[0]), PlainForm(labels[1..]))
  }

  function LowerAll(labels: seq<string>): (r: seq<string>)
    ensures |r| == |labels|
    ensures forall i :: 0 <= i < |labels| ==> r[i] == Lower(labels[i])
  {
    seq(|labels|, i requires 0 <= i < |labels| => Lower(labels[i]))
  }

  lemma {:induction false} PlainFormLabels(at: nat, labels: seq<string>)
    requires forall i :: 0 <= i < |labels| ==> EncodableLabel(labels[i])
    ensures Labels(PlainForm(labels)) == LowerAll(labels)
    ensures Defect(PlainForm(labels)).None?
    ensures EndOf(at, PlainForm(labels)) == at + |LabelsBytes(labels)| + 1
    decreases labels
  {
    if labels != [] {
      PlainFormLabels(at + 1 + |labels[0]|, labels[1..]);
      assert LowerAll(labels) == [Lower(labels[0])] + LowerAll(labels[1..]);
    }
  }

  lemma LabelRead(data: seq<byte>, at: nat, text: string)
    requires EncodableLabel(text) && Holds(data, at, LabelBytes(text))
    ensures at < |data| && data[at] == |text| && at + 1 + |text| <= |data|
    ensures DecodeLabel(data[at + 1..at + 1 + |text|]) == Lower(text)
  {
    var b := data[at..at + |LabelBytes(text)|];
    assert b[0] == |text|;
    assert data[at + 1..at + 1 + |text|] == b[1..];
  }

  lemma LabelsBytesBefore(labels: seq<string>, end: seq<byte>)
    requires labels != [] && forall i :: 0 <= i < |labels| ==> EncodableLabel(labels[i])
    ensures LabelsBytes(labels) + end == LabelBytes(labels[0]) + (LabelsBytes(labels[1..]) + end)
  {
    ConcatIsAssociative(LabelBytes(labels[0]), LabelsBytes(labels[1..]), end);
  }

  lemma LabelsBytesSize(labels: seq<string>)
    requires labels != [] && forall i :: 0 <= i < |labels| ==> EncodableLabel(labels[i])
    ensures |LabelsBytes(labels)| == 1 + |labels[0]| + |LabelsBytes(labels[1..])|
  {
  }

  /** The first serialized label and what follows it, whatever ends the name. */
  lemma LabelsHeldBefore(data: seq<byte>, at: nat, labels: seq<string>, end: seq<byte>)
    requires labels != [] && forall i :: 0 <= i < |labels| ==> EncodableLabel(labels[i])
    requires Holds(data, at, LabelsBytes(labels) + end)
    ensures HoldsLabel(data, at, labels[0], LabelsBytes(labels[1..]) + end)
  {
    LabelsBytesBefore(labels, end);
    FirstOfConcat(data, at, LabelsBytes(labels) + end, labels[0], LabelsBytes(labels[1..]) + end);
  }

  /** A label can be read at an offset, and behind it these bytes. */
  predicate HoldsLabel(data: seq<byte>, at: nat, text: string, rest: seq<byte>) {
    && at + 1 + |text| <= |data| && data[at] == |text|
    && DecodeLabel(data[at + 1..at + 1 + |text|]) == Lower(text)
    && Holds(data, at + 1 + |text|, rest)
  }

  lemma FirstOfConcat(data: seq<byte>, at: nat, all: seq<byte>, text: string, rest: seq<byte>)
    requires EncodableLabel(text) && Holds(data, at, all) && all == LabelBytes(text) + rest
    ensures HoldsLabel(data, at, text, rest)
  {
    HoldsConcat(data, at, LabelBytes(text), rest);
    LabelRead(data, at, text);
  }

  /** The first serialized label, and what follows it. */
  lemma LabelsHeld(data: seq<byte>, at: nat, labels: seq<string>)
    requires labels != [] && forall i :: 0 <= i < |labels| ==> EncodableLabel(labels[i])
    requires Holds(data, at, LabelsBytes(labels) + [0])
    ensures at + 1 + |labels[0]| <= |data| && data[at] == |labels[0]|
    ensures DecodeLabel(data[at + 1..at + 1 + |labels[0]|]) == Lower(labels[0])
    ensures Holds(data, at + 1 + |labels[0]|, LabelsBytes(labels[1..]) + [0])
  {
    LabelsHeldBefore(data, at, labels, [0]);
  }

  /** Serialized labels of plain length spell the uncompressed form. */
  lemma {:induction false} LabelsSpell(data: seq<byte>, at: nat, labels: seq<string>)
    requires forall i :: 0 <= i < |labels| ==> EncodableLabel(labels[i]) && 0 < |labels[i]| < 0xC0
    requires Holds(data, at, LabelsBytes(labels) + [0])
    ensures Spells(data, at, PlainForm(labels))
    decreases labels
  {
    if labels == [] {
      assert data[at..at + 1] == [0];
    } else {
      LabelsHeld(data, at, labels);
      LabelsSpell(data, at + 1 + |labels[0]|, labels[1..]);
    }
  }

  /** Index of the first label whose length byte does not read as a plain length, if any. */
  function FirstBad(labels: seq<string>): (k: nat)
    ensures k <= |labels|
    ensures forall i :: 0 <= i < k ==> 0 < |labels[i]| < 0xC0
    ensures k < |labels| ==> |labels[k]| == 0 || |labels[k]| >= 0xC0
  {
    if labels == [] || |labels[0]| == 0 || |labels[0]| >= 0xC0 then 0 else 1 + FirstBad(labels[1..])
  }

  /** A serialized name with a bad label reads as ending too early: at the empty label, or behind
      the stray compression pointer. */
  lemma {:induction false} BadLabelEndsEarly(data: seq<byte>, at: nat, labels: seq<string>, w: WireName)
    requires forall i :: 0 <= i < |labels| ==> EncodableLabel(labels[i])
    requires FirstBad(labels) < |labels|
    requires Holds(data, at, LabelsBytes(labels) + [0])
    requires Spells(data, at, w) && Defect(w).None?
    ensures EndOf(at, w) < at + |LabelsBytes(labels)| + 1
    decreases labels
  {
    LabelsHeld(data, at, labels);
    LabelsBytesSize(labels);
    if FirstBad(labels) > 0 {
      BadLabelEndsEarly(data, at + 1 + |labels[0]|, labels[1..], w.rest);
    }
  }

  /** If the bad label is empty, the labels before it are what is read. */
  lemma {:induction false} EmptyLabelCuts(data: seq<byte>, at: nat, labels: seq<string>, w: WireName)
    requires forall i :: 0 <= i < |labels| ==> EncodableLabel(labels[i])
    requires FirstBad(labels) < |labels| && labels[FirstBad(labels)] == []
    requires Holds(data, at, LabelsBytes(labels) + [0])
    requires Spells(data, at, w) && Defect(w).None?
    ensures Labels(w) == LowerAll(labels[..FirstBad(labels)])
    decreases labels
  {
    var k := FirstBad(labels);
    LabelsHeld(data, at, labels);
    if k == 0 {
      assert LowerAll(labels[..0]) == [];
    } else {
      EmptyLabelCuts(data, at + 1 + |labels[0]|, labels[1..], w.rest);
      LowerAllCons(labels, k);
    }
  }

  lemma LowerAllCons(labels: seq<string>, k: nat)
    requires 0 < k <= |labels|
    ensures LowerAll(labels[..k]) == [Lower(labels[0])] + LowerAll(labels[1..][..k - 1])
  {
    assert labels[..k] == [labels[0]] + labels[1..][..k - 1];
  }

  lemma {:induction false} LowerJoin(labels: seq<string>)
    ensures Join(LowerAll(labels), '.') == Lower(Join(labels, '.'))
  {
    if labels == [] {
    } else if |labels| == 1 {
      assert LowerAll(labels)[0] == Lower(labels[0]);
    } else {
      LowerJoin(labels[1..]);
      assert LowerAll(labels)[1..] == LowerAll(labels[1..]);
    }
  }

  lemma StripKeepsLength(name: string)
    ensures |Strip(name, {'.'})| == |name| ==> Strip(name, {'.'}) == name
  {
    StripLeftShape(name, {'.'});
    StripRightShape(StripLeft(name, {'.'}), {'.'});
  }

  /** Lower-casing the whole name is lower-casing every label. */
  lemma {:induction false} LowerPieces(name: string)
    ensures IsLower(name) <==> forall i :: 0 <= i < |Split(name, '.')| ==> IsLower(Split(name, '.')[i])
    ensures IsAscii(name) <==> forall i :: 0 <= i < |Split(name, '.')| ==> IsAscii(Split(name, '.')[i])
  {
    if name != [] {
      var rest := Split(name[1..], '.');
      LowerPieces(name[1..]);
      assert name == name[..1] + name[1..];
      CharsOfConcat(name[..1], name[1..]);
      var all := Split(name, '.');
      if name[0] == '.' {
        assert all == [[]] + rest;
        assert forall i :: 0 <= i < |rest| ==> all[i + 1] == rest[i];
      } else {
        assert all == [[name[0]] + rest[0]] + rest[1..];
        assert all[0] == name[..1] + rest[0];
        CharsOfConcat(name[..1], rest[0]);
        assert forall i :: 1 <= i < |rest| ==> all[i] == rest[i];
      }
    }
  }

  /** A serialized name without bad labels reads back lower-cased and stripped of outer dots. */
  lemma GoodLabelsRead(data: seq<byte>, at: nat, name: string)
    requires EncodableName(name) && Holds(data, at, NameBytes(name))
    requires FirstBad(NameLabels(name)) == |NameLabels(name)|
    ensures NameAt(data, at) == Success((Lower(Strip(name, {'.'})), at + |NameBytes(name)|))
  {
    var labels := NameLabels(name);
    LabelsSpell(data, at, labels);
    PlainFormLabels(at, labels);
    NameAtForm(data, at, PlainForm(labels));
    LowerJoin(labels);
    JoinSplit(Strip(name, {'.'}), '.');
  }

  lemma {:induction false} FirstBadNone(labels: seq<string>)
    requires forall i :: 0 <= i < |labels| ==> 0 < |labels[i]| < 0xC0
    ensures FirstBad(labels) == |labels|
  {
    if labels != [] {
      FirstBadNone(labels[1..]);
    }
  }

  lemma CanonicalIsEncodable(name: string)
    requires CanonicalName(name)
    ensures EncodableName(name) && NameLabels(name) == Split(name, '.')
    ensures FirstBad(NameLabels(name)) == |NameLabels(name)|
    ensures Lower(Strip(name, {'.'})) == name
  {
    StripTrims(name, {'.'});
    assert forall i :: 0 <= i < |Split(name, '.')| ==> CanonicalLabel(Split(name, '.')[i]);
    FirstBadNone(Split(name, '.'));
    LowerPieces(name);
    LowerIdentity(name);
  }

  /** A name whose good labels read back as itself is canonical. */
  lemma GoodReadBackIsCanonical(name: string)
    requires EncodableName(name) && FirstBad(NameLabels(name)) == |NameLabels(name)|
    requires Lower(Strip(name, {'.'})) == name
    ensures CanonicalName(name)
  {
    StripKeepsLength(name);
    StripTrims(name, {'.'});
    LowerIdentity(name);
    LowerPieces(name);
    assert NameLabels(name) == Split(name, '.');
    forall i | 0 <= i < |Split(name, '.')|
      ensures CanonicalLabel(Split(name, '.')[i])
    {
      assert EncodableLabel(NameLabels(name)[i]);
    }
  }

  /** One name, in any surroundings: the reader returns it and stops right behind it exactly when
      the name is canonical. The root name is not: it is written as two zero bytes. */
  lemma NameRoundTrip(data: seq<byte>, at: nat, name: string)
    requires EncodableName(name) && Holds(data, at, NameBytes(name))
    ensures NameAt(data, at) == Success((name, at + |NameBytes(name)|)) <==> CanonicalName(name)
  {
    if CanonicalName(name) {
      CanonicalIsEncodable(name);
      GoodLabelsRead(data, at, name);
    } else if NameAt(data, at) == Success((name, at + |NameBytes(name)|)) {
      if FirstBad(NameLabels(name)) == |NameLabels(name)| {
        GoodLabelsRead(data, at, name);
        GoodReadBackIsCanonical(name);
      } else {
        BadLabelEndsEarly(data, at, NameLabels(name), FormAt(data, at));
      }
    }
  }

  // ---------------------------------------------------------------- names that change on the way

  lemma {:induction false} PiecesAreShorter(s: string)
    ensures forall i :: 0 <= i < |Split(s, '.')| ==> |Split(s, '.')[i]| <= |s|
  {
    if s != [] {
      PiecesAreShorter(s[1..]);
    }
  }

  lemma {:induction false} JoinedPiecesAreShort(labels: seq<string>)
    requires forall i :: 0 <= i < |labels| ==> |labels[i]| < 0xC0
    ensures forall i :: 0 <= i < |Split(Join(labels, '.'), '.')| ==> |Split(Join(labels, '.'), '.')[i]| < 0xC0
  {
    if labels == [] {
    } else {
      PiecesAreShorter(labels[0]);
      if |labels| > 1 {
        JoinedPiecesAreShort(labels[1..]);
        SplitAround(labels[0], '.', Join(labels[1..], '.'));
      }
    }
  }

  lemma {:induction false} StripLeftPieces(s: string, p: string)
    requires p in Split(StripLeft(s, {'.'}), '.')
    ensures p in Split(s, '.')
  {
    if s != [] && s[0] == '.' {
      StripLeftPieces(s[1..], p);
      assert Split(s, '.') == [[]] + Split(s[1..], '.');
    }
  }

  lemma {:induction false} StripRightPieces(s: string, p: string)
    requires p in Split(StripRight(s, {'.'}), '.')
    ensures p in Split(s, '.')
  {
    if s != [] && s[|s| - 1] == '.' {
      StripRightPieces(s[..|s| - 1], p);
      SplitAround(s[..|s| - 1], '.', []);
      assert s == s[..|s| - 1] + ['.'] + [];
    }
  }

  lemma {:induction false} WireLabelsAreShort(data: seq<byte>, at: nat, w: WireName)
    requires Spells(data, at, w)
    ensures forall i :: 0 <= i < |Labels(w)| ==> |Labels(w)[i]| < 0xC0
    decreases w
  {
    match w
    case Label(text, rest) => WireLabelsAreShort(data, at + 1 + |text|, rest);
    case Pointer(target, rest) => WireLabelsAreShort(data, target, rest);
    case _ =>
  }

  lemma {:induction false} JoinIsTrimmed(labels: seq<string>)
    requires labels != [] && forall i :: 0 <= i < |labels| ==> labels[i] != [] && '.' !in labels[i]
    ensures Trimmed(Join(labels, '.'), {'.'}) && Join(labels, '.') != []
  {
    var s := Join(labels, '.');
    assert s[0] == labels[0][0];
    if |labels| == 1 {
      assert s[|s| - 1] in labels[0];
    } else {
      JoinIsTrimmed(labels[1..]);
      var t := Join(labels[1..], '.');
      assert s[|s| - 1] == t[|t| - 1];
    }
  }

  /** A name cut short by an empty label is a different name. */
  lemma CutNameDiffers(name: string, k: nat)
    requires Strip(name, {'.'}) != []
    requires k < |NameLabels(name)| && forall i :: 0 <= i < k ==> 0 < |NameLabels(name)[i]|
    requires NameLabels(name)[k] == []
    ensures Join(LowerAll(NameLabels(name)[..k]), '.') != name
  {
    var cut := LowerAll(NameLabels(name)[..k]);
    if k == 0 {
      StripTrims(name, {'.'});
    } else if Join(cut, '.') == name {
      forall i | 0 <= i < k
        ensures cut[i] != [] && '.' !in cut[i]
      {
        assert cut[i] == Lower(NameLabels(name)[i]);
        assert '.' !in NameLabels(name)[i];
        assert forall j :: 0 <= j < |cut[i]| ==> NameLabels(name)[i][j] != '.';
      }
      JoinIsTrimmed(cut);
      StripTrims(name, {'.'});
      SplitJoin(cut, '.');
    }
  }

  /** Even where the following bytes might make up for a wrong end, no name but a canonical one (or
      the root) ever reads back as itself. */
  lemma ReadBackIsCanonical(data: seq<byte>, at: nat, name: string)
    requires EncodableName(name) && Holds(data, at, NameBytes(name))
    requires Strip(name, {'.'}) != []
    requires NameAt(data, at).Success? && NameAt(data, at).value.0 == name
    ensures CanonicalName(name)
  {
    var labels := NameLabels(name);
    var k := FirstBad(labels);
    if k == |labels| {
      GoodLabelsRead(data, at, name);
      GoodReadBackIsCanonical(name);
    } else {
      var w := FormAt(data, at);
      if labels[k] == [] {
        EmptyLabelCuts(data, at, labels, w);
        CutNameDiffers(name, k);
      } else {
        WireLabelsAreShort(data, at, w);
        JoinedPiecesAreShort(Labels(w));
        assert labels[k] in labels;
        StripRightPieces(StripLeft(name, {'.'}), labels[k]);
        StripLeftPieces(name, labels[k]);
      }
      assert false;
    }
  }

  // ---------------------------------------------------------------- compressed names

  /** Labels in front of another form. */
  function Above(labels: seq<string>, rest: WireName): WireName {
    if labels == [] then rest else Label(Lower(labels[0]), Above(labels[1..], rest))
  }

  /** The two bytes that section 4.1.4 of RFC 1035 gives a pointer to `offset`. */
  function PointerBytes(offset: nat): (b: seq<byte>)
    requires offset < 0x4000
    ensures |b| == 2
  {
    [0xC0 + offset / 256, offset % 256]
  }

  predicate PlainLabels(labels: seq<string>) {
    forall i :: 0 <= i < |labels| ==> IsAscii(labels[i]) && 0 < |labels[i]| < 0xC0
  }

  lemma {:induction false} AboveLabels(at: nat, labels: seq<string>, rest: WireName)
    requires PlainLabels(labels)
    ensures Labels(Above(labels, rest)) == LowerAll(labels) + Labels(rest)
    ensures Defect(Above(labels, rest)) == Defect(rest)
    ensures EndOf(at, Above(labels, rest)) == EndOf(at + |LabelsBytes(labels)|, rest)
    decreases labels
  {
    if labels == [] {
      assert LowerAll(labels) + Labels(rest) == Labels(rest);
    } else {
      AboveLabels(at + 1 + |labels[0]|, labels[1..], rest);
      assert LowerAll(labels) == [Lower(labels[0])] + LowerAll(labels[1..]);
    }
  }

  lemma {:induction false} AboveSpelled(data: seq<byte>, at: nat, labels: seq<string>, end: seq<byte>, rest: WireName)
    requires PlainLabels(labels) && Holds(data, at, LabelsBytes(labels) + end)
    requires Spells(data, at + |LabelsBytes(labels)|, rest)
    ensures Spells(data, at, Above(labels, rest))
    decreases labels
  {
    if labels != [] {
      LabelsHeldBefore(data, at, labels, end);
      LabelsBytesSize(labels);
      AboveSpelled(data, at + 1 + |labels[0]|, labels[1..], end, rest);
    }
  }

  /** A name in front of another one. */
  function Prefixed(name: string, tail: string): string {
    if tail == [] then name else name + ['.'] + tail
  }

  lemma PrefixedJoin(labels: seq<string>, rest: seq<string>)
    requires labels != [] && forall i :: 0 <= i < |rest| ==> rest[i] != []
    ensures Join(LowerAll(labels) + rest, '.') == Prefixed(Lower(Join(labels, '.')), Join(rest, '.'))
  {
    LowerJoin(labels);
    if rest == [] {
      assert LowerAll(labels) + rest == LowerAll(labels);
    } else {
      JoinAppend(LowerAll(labels), rest, '.');
    }
  }

  lemma {:induction false} WireLabelsAreNotEmpty(data: seq<byte>, at: nat, w: WireName)
    requires Spells(data, at, w)
    ensures forall i :: 0 <= i < |Labels(w)| ==> Labels(w)[i] != []
    decreases w
  {
    match w
    case Label(text, rest) => WireLabelsAreNotEmpty(data, at + 1 + |text|, rest);
    case Pointer(target, rest) => WireLabelsAreNotEmpty(data, target, rest);
    case _ =>
  }

  /** Labels followed by a pointer read as those labels in front of the name the pointer leads to. */
  lemma CompressedName(data: seq<byte>, at: nat, labels: seq<string>, offset: nat)
    requires labels != [] && PlainLabels(labels) && offset < 0x4000
    requires Holds(data, at, LabelsBytes(labels) + PointerBytes(offset)) && NameAt(data, offset).Success?
    ensures NameAt(data, at) ==
            Success((Prefixed(Lower(Join(labels, '.')), NameAt(data, offset).value.0), at + |LabelsBytes(labels)| + 2))
  {
    var mid, tail := at + |LabelsBytes(labels)|, FormAt(data, offset);
    PointerHeld(data, at, labels, offset);
    AboveSpelled(data, at, labels, PointerBytes(offset), Pointer(offset, tail));
    AboveReads(data, at, labels, offset, tail);
    WireLabelsAreNotEmpty(data, offset, tail);
    PrefixedJoin(labels, Labels(tail));
  }

  lemma PointerHeld(data: seq<byte>, at: nat, labels: seq<string>, offset: nat)
    requires PlainLabels(labels) && offset < 0x4000
    requires Holds(data, at, LabelsBytes(labels) + PointerBytes(offset)) && HasForm(data, offset)
    ensures Spells(data, at + |LabelsBytes(labels)|, Pointer(offset, FormAt(data, offset)))
  {
    var mid := at + |LabelsBytes(labels)|;
    HoldsConcat(data, at, LabelsBytes(labels), PointerBytes(offset));
    assert data[mid..mid + 2] == PointerBytes(offset);
    assert data[mid] == data[mid..mid + 2][0] && data[mid + 1] == data[mid..mid + 2][1];
    PointerOffset(data[mid], data[mid + 1], offset);
  }

  lemma AboveReads(data: seq<byte>, at: nat, labels: seq<string>, offset: nat, tail: WireName)
    requires PlainLabels(labels) && Spells(data, at, Above(labels, Pointer(offset, tail))) && Defect(tail).None?
    ensures NameAt(data, at) == Success((Join(LowerAll(labels) + Labels(tail), '.'), at + |LabelsBytes(labels)| + 2))
  {
    AboveLabels(at, labels, Pointer(offset, tail));
    NameAtForm(data, at, Above(labels, Pointer(offset, tail)));
  }

  /** Compression cannot be seen: a canonical name whose last labels are replaced by a pointer to where
      they are written reads as the same name. */
  lemma CompressionIsInvisible(data: seq<byte>, at: nat, name: string, front: seq<string>, back: seq<string>, offset: nat)
    requires CanonicalName(name) && Split(name, '.') == front + back && front != [] && back != []
    requires forall i :: 0 <= i < |front| ==> EncodableLabel(front[i])
    requires forall i :: 0 <= i < |back| ==> EncodableLabel(back[i])
    requires offset < 0x4000 && Holds(data, offset, LabelsBytes(back) + [0])
    requires Holds(data, at, LabelsBytes(front) + PointerBytes(offset))
    ensures NameAt(data, at) == Success((name, at + |LabelsBytes(front)| + 2))
  {
    PartsAreCanonical(front, back);
    LabelsSpell(data, offset, back);
    PlainFormLabels(offset, back);
    NameAtForm(data, offset, PlainForm(back));
    LowerAllCanonical(front);
    LowerAllCanonical(back);
    JoinIsTrimmed(back);
    LowerJoin(front);
    CompressedName(data, at, front, offset);
    JoinAppend(front, back, '.');
    JoinSplit(name, '.');
  }

  lemma PartsAreCanonical(front: seq<string>, back: seq<string>)
    requires forall i :: 0 <= i < |front + back| ==> CanonicalLabel((front + back)[i]) && '.' !in (front + back)[i]
    ensures forall i :: 0 <= i < |front| ==> CanonicalLabel(front[i]) && '.' !in front[i]
    ensures forall i :: 0 <= i < |back| ==> CanonicalLabel(back[i]) && '.' !in back[i]
  {
    assert forall i :: 0 <= i < |front| ==> front[i] == (front + back)[i];
    assert forall i :: 0 <= i < |back| ==> back[i] == (front + back)[|front| + i];
  }

  lemma LowerAllCanonical(labels: seq<string>)
    requires forall i :: 0 <= i < |labels| ==> CanonicalLabel(labels[i])
    ensures LowerAll(labels) == labels
  {
    forall i | 0 <= i < |labels|
      ensures LowerAll(labels)[i] == labels[i]
    {
      LowerIdentity(labels[i]);
    }
  }

  // ---------------------------------------------------------------- questions and records alike

  /** A question or a record, wherever it stands in a message. */
  datatype Item = QuestionItem(q: DNSQuestion) | RecordItem(rr: DNSRecord)

  function NameOf(x: Item): string {
    match x
    case QuestionItem(q) => q.qname
    case RecordItem(rr) => rr.name
  }

  function TypeOf(x: Item): int {
    match x
    case QuestionItem(q) => q.qtype
    case RecordItem(rr) => rr.rtype
  }

  predicate EncodableItem(x: Item) {
    match x
    case QuestionItem(q) => EncodableQuestion(q)
    case RecordItem(rr) => EncodableRecord(rr)
  }

  /** What is written behind the name. */
  function FieldBytes(x: Item): (b: seq<byte>)
    requires EncodableItem(x)
    ensures |b| == FieldsSize(x)
  {
    match x
    case QuestionItem(q) => Pack16(q.qtype) + Pack16(q.qclass)
    case RecordItem(rr) => RecordFields(rr) + rr.rdata
  }

  function FieldsSize(x: Item): nat {
    match x
    case QuestionItem(_) => 4
    case RecordItem(rr) => 10 + |rr.rdata|
  }

  function ItemBytes(x: Item): seq<byte>
    requires EncodableItem(x)
  {
    NameBytes(NameOf(x)) + FieldBytes(x)
  }

  /** The end of `x` if the parser, looking for such an item at `at`, reads exactly `x`. */
  ghost function ReadItem(data: seq<byte>, at: nat, x: Item): Option<nat> {
    match x
    case QuestionItem(q) =>
      var r := QuestionAt(data, at);
      if r.Success? && r.value.0 == q then Some(r.value.1) else None
    case RecordItem(rr) =>
      var r := RecordAt(data, at);
      if r.Success? && r.value.0 == rr then Some(r.value.1) else None
  }

  predicate EncodableItems(xs: seq<Item>) {
    forall i :: 0 <= i < |xs| ==> EncodableItem(xs[i])
  }

  /** The items' bytes, one by one. */
  function Encoded(xs: seq<Item>): (parts: seq<seq<byte>>)
    requires EncodableItems(xs)
    ensures |parts| == |xs| && forall i :: 0 <= i < |xs| ==> parts[i] == ItemBytes(xs[i])
  {
    seq(|xs|, i requires 0 <= i < |xs| => ItemBytes(xs[i]))
  }

  function Flatten<T>(parts: seq<seq<T>>): seq<T> {
    if parts == [] then [] else parts[0] + Flatten(parts[1..])
  }

  lemma FlattenCons<T>(x: seq<T>, parts: seq<seq<T>>)
    ensures Flatten([x] + parts) == x + Flatten(parts)
  {
    assert ([x] + parts)[1..] == parts;
  }

  lemma {:induction false} FlattenConcat<T>(a: seq<seq<T>>, b: seq<seq<T>>)
    ensures Flatten(a + b) == Flatten(a) + Flatten(b)
  {
    if a == [] {
      assert a + b == b;
    } else {
      FlattenConcat(a[1..], b);
      FlattenCons(a[0], a[1..] + b);
      assert a + b == [a[0]] + (a[1..] + b);
      ConcatIsAssociative(a[0], Flatten(a[1..]), Flatten(b));
    }
  }

  function ItemsBytes(xs: seq<Item>): seq<byte>
    requires EncodableItems(xs)
  {
    Flatten(Encoded(xs))
  }

  /** The end of the last item if the parser reads exactly `xs`, one behind the other. */
  ghost function ReadItems(data: seq<byte>, at: nat, xs: seq<Item>): Option<nat>
    decreases |xs|
  {
    if xs == [] then Some(at)
    else
      match ReadItem(data, at, xs[0])
      case None => None
      case Some(next) => ReadItems(data, next, xs[1..])
  }

  lemma EncodableConcat(a: seq<Item>, b: seq<Item>)
    requires EncodableItems(a) && EncodableItems(b)
    ensures EncodableItems(a + b) && Encoded(a + b) == Encoded(a) + Encoded(b)
  {
  }

  lemma ItemsBytesConcat(a: seq<Item>, b: seq<Item>)
    requires EncodableItems(a) && EncodableItems(b)
    ensures EncodableItems(a + b) && ItemsBytes(a + b) == ItemsBytes(a) + ItemsBytes(b)
  {
    EncodableConcat(a, b);
    FlattenConcat(Encoded(a), Encoded(b));
  }

  lemma ItemsBytesSnoc(xs: seq<Item>, x: Item)
    requires EncodableItems(xs) && EncodableItem(x)
    ensures EncodableItems(xs + [x]) && ItemsBytes(xs + [x]) == ItemsBytes(xs) + ItemBytes(x)
  {
    ItemsBytesConcat(xs, [x]);
    assert Encoded([x]) == [ItemBytes(x)];
    assert Flatten([ItemBytes(x)]) == ItemBytes(x) + Flatten([ItemBytes(x)][1..]);
  }

  lemma {:induction false} ReadItemsConcat(data: seq<byte>, at: nat, a: seq<Item>, b: seq<Item>)
    ensures ReadItems(data, at, a + b) ==
            match ReadItems(data, at, a) case None => None case Some(mid) => ReadItems(data, mid, b)
    decreases |a|
  {
    if a == [] {
      assert a + b == b;
    } else {
      assert (a + b)[1..] == a[1..] + b;
      var next := ReadItem(data, at, a[0]);
      if next.Some? {
        ReadItemsConcat(data, next.value, a[1..], b);
      }
    }
  }

  lemma ReadOneItem(data: seq<byte>, at: nat, x: Item)
    ensures ReadItems(data, at, [x]) == ReadItem(data, at, x)
  {
    assert [x][1..] == [];
  }

  // ---------------------------------------------------------------- sections as items

  function QuestionItems(qs: seq<DNSQuestion>): (xs: seq<Item>)
    ensures |xs| == |qs| && forall i :: 0 <= i < |qs| ==> xs[i] == QuestionItem(qs[i])
  {
    seq(|qs|, i requires 0 <= i < |qs| => QuestionItem(qs[i]))
  }

  function RecordItems(rrs: seq<DNSRecord>): (xs: seq<Item>)
    ensures |xs| == |rrs| && forall i :: 0 <= i < |rrs| ==> xs[i] == RecordItem(rrs[i])
  {
    seq(|rrs|, i requires 0 <= i < |rrs| => RecordItem(rrs[i]))
  }

  /** All items of a message, in the order of the wire. */
  function Items(m: DNSMessage): seq<Item> {
    QuestionItems(m.questions) + (RecordItems(m.answers) + (RecordItems(m.authorities) + RecordItems(m.additionals)))
  }

  lemma QuestionIsItem(q: DNSQuestion)
    requires EncodableQuestion(q)
    ensures EncodableItem(QuestionItem(q)) && ItemBytes(QuestionItem(q)) == QuestionBytes(q)
  {
  }

  lemma RecordIsItem(rr: DNSRecord)
    requires EncodableRecord(rr)
    ensures EncodableItem(RecordItem(rr)) && ItemBytes(RecordItem(rr)) == RecordBytes(rr)
  {
  }

  lemma QuestionsSnoc(init: seq<DNSQuestion>, q: DNSQuestion)
    requires EncodableQuestions(init + [q])
    ensures EncodableQuestions(init) && EncodableQuestion(q)
    ensures QuestionsBytes(init + [q]) == QuestionsBytes(init) + QuestionBytes(q)
    ensures QuestionItems(init + [q]) == QuestionItems(init) + [QuestionItem(q)]
  {
    var qs := init + [q];
    assert qs[..|qs| - 1] == init && qs[|qs| - 1] == q;
  }

  lemma RecordsSnoc(init: seq<DNSRecord>, rr: DNSRecord)
    requires EncodableRecords(init + [rr])
    ensures EncodableRecords(init) && EncodableRecord(rr)
    ensures RecordsBytes(init + [rr]) == RecordsBytes(init) + RecordBytes(rr)
    ensures RecordItems(init + [rr]) == RecordItems(init) + [RecordItem(rr)]
  {
    var rrs := init + [rr];
    assert rrs[..|rrs| - 1] == init && rrs[|rrs| - 1] == rr;
  }

  lemma {:induction false} QuestionsAreItems(qs: seq<DNSQuestion>)
    requires EncodableQuestions(qs)
    ensures EncodableItems(QuestionItems(qs)) && ItemsBytes(QuestionItems(qs)) == QuestionsBytes(qs)
  {
    if qs != [] {
      var init, q := qs[..|qs| - 1], qs[|qs| - 1];
      assert qs == init + [q];
      QuestionsSnoc(init, q);
      QuestionsAreItems(init);
      QuestionIsItem(q);
      ItemsBytesSnoc(QuestionItems(init), QuestionItem(q));
    }
  }

  lemma {:induction false} RecordsAreItems(rrs: seq<DNSRecord>)
    requires EncodableRecords(rrs)
    ensures EncodableItems(RecordItems(rrs)) && ItemsBytes(RecordItems(rrs)) == RecordsBytes(rrs)
  {
    if rrs != [] {
      var init, rr := rrs[..|rrs| - 1], rrs[|rrs| - 1];
      assert rrs == init + [rr];
      RecordsSnoc(init, rr);
      RecordsAreItems(init);
      RecordIsItem(rr);
      ItemsBytesSnoc(RecordItems(init), RecordItem(rr));
    }
  }

  /** The end of the questions if the question loop reads exactly `qs`. */
  ghost function ReadQuestions(data: seq<byte>, at: nat, qs: seq<DNSQuestion>): Option<nat> {
    var r := QuestionsAt(data, at, |qs|);
    if r.Success? && r.value.0 == qs then Some(r.value.1) else None
  }

  /** The end of the records if a record loop reads exactly `rrs`. */
  ghost function ReadRecords(data: seq<byte>, at: nat, rrs: seq<DNSRecord>): Option<nat> {
    var r := RecordsAt(data, at, |rrs|);
    if r.Success? && r.value.0 == rrs then Some(r.value.1) else None
  }

  lemma ReadQuestionsSnoc(data: seq<byte>, at: nat, qs: seq<DNSQuestion>, q: DNSQuestion)
    ensures ReadQuestions(data, at, qs + [q]) ==
            match ReadQuestions(data, at, qs) case None => None case Some(mid) => ReadItem(data, mid, QuestionItem(q))
  {
    var init := QuestionsAt(data, at, |qs|);
    assert |qs + [q]| - 1 == |qs|;
    if init.Success? {
      var last := QuestionAt(data, init.value.1);
      if last.Success? {
        assert QuestionsAt(data, at, |qs| + 1) == Success((init.value.0 + [last.value.0], last.value.1));
        SnocEquals(qs, q, init.value.0, last.value.0);
      }
    }
  }

  lemma ReadRecordsSnoc(data: seq<byte>, at: nat, rrs: seq<DNSRecord>, rr: DNSRecord)
    ensures ReadRecords(data, at, rrs + [rr]) ==
            match ReadRecords(data, at, rrs) case None => None case Some(mid) => ReadItem(data, mid, RecordItem(rr))
  {
    var init := RecordsAt(data, at, |rrs|);
    assert |rrs + [rr]| - 1 == |rrs|;
    if init.Success? {
      var last := RecordAt(data, init.value.1);
      if last.Success? {
        assert RecordsAt(data, at, |rrs| + 1) == Success((init.value.0 + [last.value.0], last.value.1));
        SnocEquals(rrs, rr, init.value.0, last.value.0);
      }
    }
  }

  lemma ReadItemsSnoc(data: seq<byte>, at: nat, xs: seq<Item>, x: Item)
    ensures ReadItems(data, at, xs + [x]) ==
            match ReadItems(data, at, xs) case None => None case Some(mid) => ReadItem(data, mid, x)
  {
    ReadItemsConcat(data, at, xs, [x]);
    if ReadItems(data, at, xs).Some? {
      ReadOneItem(data, ReadItems(data, at, xs).value, x);
    }
  }

  lemma {:induction false} QuestionsReadAsItems(data: seq<byte>, at: nat, qs: seq<DNSQuestion>)
    ensures ReadItems(data, at, QuestionItems(qs)) == ReadQuestions(data, at, qs)
  {
    if qs != [] {
      var init, q := qs[..|qs| - 1], qs[|qs| - 1];
      QuestionsReadAsItems(data, at, init);
      ReadQuestionsSnoc(data, at, init, q);
      ReadItemsSnoc(data, at, QuestionItems(init), QuestionItem(q));
      assert qs == init + [q] && QuestionItems(qs) == QuestionItems(init) + [QuestionItem(q)];
    }
  }

  lemma {:induction false} RecordsReadAsItems(data: seq<byte>, at: nat, rrs: seq<DNSRecord>)
    ensures ReadItems(data, at, RecordItems(rrs)) == ReadRecords(data, at, rrs)
  {
    if rrs != [] {
      var init, rr := rrs[..|rrs| - 1], rrs[|rrs| - 1];
      RecordsReadAsItems(data, at, init);
      ReadRecordsSnoc(data, at, init, rr);
      ReadItemsSnoc(data, at, RecordItems(init), RecordItem(rr));
      assert rrs == init + [rr] && RecordItems(rrs) == RecordItems(init) + [RecordItem(rr)];
    }
  }

  lemma SnocEquals<T>(s: seq<T>, x: T, t: seq<T>, y: T)
    ensures s + [x] == t + [y] <==> s == t && x == y
  {
    if s + [x] == t + [y] {
      assert (s + [x])[..|s|] == s && (t + [y])[..|t|] == t;
      assert (s + [x])[|s|] == x && (t + [y])[|t|] == y;
    }
  }

  // ---------------------------------------------------------------- one item

  lemma Pack16Read(data: seq<byte>, at: nat, v: int)
    requires Fits16(v) && Holds(data, at, Pack16(v))
    ensures U16(data, at) == v
  {
    assert data[at..at + 2][0] == v / 256 && data[at..at + 2][1] == v % 256;
  }

  lemma Pack32Read(data: seq<byte>, at: nat, v: int)
    requires Fits32(v) && Holds(data, at, Pack32(v))
    ensures U32(data, at) == v
  {
    HoldsConcat(data, at, Pack16(v / 0x1_0000), Pack16(v % 0x1_0000));
    Pack16Read(data, at, v / 0x1_0000);
    Pack16Read(data, at + 2, v % 0x1_0000);
  }

  /** The fields of a question stand at `at`. */
  predicate QuestionFieldsAt(data: seq<byte>, at: nat, q: DNSQuestion) {
    at + 4 <= |data| && U16(data, at) == q.qtype && U16(data, at + 2) == q.qclass
  }

  /** The fields of a record, and its data, stand at `at`. */
  predicate RecordFieldsAt(data: seq<byte>, at: nat, rr: DNSRecord) {
    && at + 10 + |rr.rdata| <= |data|
    && U16(data, at) == rr.rtype && U16(data, at + 2) == rr.rclass && U32(data, at + 4) == rr.ttl
    && U16(data, at + 8) == |rr.rdata| && data[at + 10..at + 10 + |rr.rdata|] == rr.rdata
  }

  /** What follows the name. */
  predicate FieldsAt(data: seq<byte>, at: nat, x: Item) {
    match x
    case QuestionItem(q) => QuestionFieldsAt(data, at, q)
    case RecordItem(rr) => RecordFieldsAt(data, at, rr)
  }

  lemma QuestionFieldsHeld(data: seq<byte>, at: nat, q: DNSQuestion)
    requires Fits16(q.qtype) && Fits16(q.qclass) && Holds(data, at, Pack16(q.qtype) + Pack16(q.qclass))
    ensures QuestionFieldsAt(data, at, q)
  {
    HoldsConcat(data, at, Pack16(q.qtype), Pack16(q.qclass));
    Pack16Read(data, at, q.qtype);
    Pack16Read(data, at + 2, q.qclass);
  }

  lemma RecordFieldsRead(data: seq<byte>, at: nat, rr: DNSRecord)
    requires EncodableRecord(rr) && Holds(data, at, RecordFields(rr))
    ensures U16(data, at) == rr.rtype && U16(data, at + 2) == rr.rclass
    ensures U32(data, at + 4) == rr.ttl && U16(data, at + 8) == |rr.rdata|
  {
    var a, b, c, d := Pack16(rr.rtype), Pack16(rr.rclass), Pack32(rr.ttl), Pack16(|rr.rdata|);
    HoldsConcat(data, at, a + b + c, d);
    HoldsConcat(data, at, a + b, c);
    HoldsConcat(data, at, a, b);
    Pack16Read(data, at, rr.rtype);
    Pack16Read(data, at + 2, rr.rclass);
    Pack32Read(data, at + 4, rr.ttl);
    Pack16Read(data, at + 8, |rr.rdata|);
  }

  lemma RecordFieldsHeld(data: seq<byte>, at: nat, rr: DNSRecord)
    requires EncodableRecord(rr) && Holds(data, at, RecordFields(rr) + rr.rdata)
    ensures RecordFieldsAt(data, at, rr)
  {
    HoldsConcat(data, at, RecordFields(rr), rr.rdata);
    RecordFieldsRead(data, at, rr);
  }

  lemma FieldsHeld(data: seq<byte>, at: nat, x: Item)
    requires EncodableItem(x) && Holds(data, at, FieldBytes(x))
    ensures FieldsAt(data, at, x)
  {
    match x
    case QuestionItem(q) => QuestionFieldsHeld(data, at, q);
    case RecordItem(rr) => RecordFieldsHeld(data, at, rr);
  }

  /** The item stands at `at` and ends at `next`. */
  predicate HoldsItem(data: seq<byte>, at: nat, next: nat, x: Item) {
    EncodableItem(x) && Holds(data, at, ItemBytes(x)) && next == at + |ItemBytes(x)|
  }

  lemma ItemHeld(data: seq<byte>, at: nat, next: nat, x: Item) returns (mid: nat)
    requires HoldsItem(data, at, next, x)
    ensures EncodableName(NameOf(x)) && Holds(data, at, NameBytes(NameOf(x))) && mid == at + |NameBytes(NameOf(x))|
    ensures FieldsAt(data, mid, x) && next == mid + FieldsSize(x)
  {
    mid := at + |NameBytes(NameOf(x))|;
    HoldsConcat(data, at, NameBytes(NameOf(x)), FieldBytes(x));
    FieldsHeld(data, mid, x);
  }

  /** Reading an item is reading its name and then its fields. */
  lemma ReadItemParts(data: seq<byte>, at: nat, x: Item)
    ensures ReadItem(data, at, x) ==
            var r := NameAt(data, at);
            if r.Success? && r.value.0 == NameOf(x) && FieldsAt(data, r.value.1, x) then Some(r.value.1 + FieldsSize(x))
            else None
  {
    var r := NameAt(data, at);
    if r.Success? {
      match x
      case QuestionItem(q) => QuestionBehind(data, at, r.value.0, r.value.1, q);
      case RecordItem(rr) => RecordBehind(data, at, r.value.0, r.value.1, rr);
    }
  }

  lemma QuestionBehind(data: seq<byte>, at: nat, name: string, end: nat, q: DNSQuestion)
    requires NameAt(data, at) == Success((name, end))
    ensures ReadItem(data, at, QuestionItem(q)) == if name == q.qname && QuestionFieldsAt(data, end, q) then Some(end + 4) else None
  {
  }

  lemma RecordBehind(data: seq<byte>, at: nat, name: string, end: nat, rr: DNSRecord)
    requires NameAt(data, at) == Success((name, end))
    ensures ReadItem(data, at, RecordItem(rr)) ==
            if name == rr.name && RecordFieldsAt(data, end, rr) then Some(end + 10 + |rr.rdata|) else None
  {
  }

  lemma ReadItemBehind(data: seq<byte>, at: nat, mid: nat, x: Item)
    requires NameAt(data, at) == Success((NameOf(x), mid))
    ensures ReadItem(data, at, x) == if FieldsAt(data, mid, x) then Some(mid + FieldsSize(x)) else None
  {
    ReadItemParts(data, at, x);
  }

  /** A written item whose name is read as it is, and to its end, is read as it is. */
  lemma NamedItemRead(data: seq<byte>, at: nat, mid: nat, next: nat, x: Item)
    requires NameAt(data, at) == Success((NameOf(x), mid)) && FieldsAt(data, mid, x) && next == mid + FieldsSize(x)
    ensures ReadItem(data, at, x) == Some(next)
  {
    ReadItemBehind(data, at, mid, x);
  }

  lemma HeldNameRead(data: seq<byte>, at: nat, next: nat, x: Item) returns (mid: nat)
    requires HoldsItem(data, at, next, x)
    ensures CanonicalName(NameOf(x)) ==> NameAt(data, at) == Success((NameOf(x), mid))
    ensures FieldsAt(data, mid, x) && next == mid + FieldsSize(x)
  {
    mid := ItemHeld(data, at, next, x);
    NameRoundTrip(data, at, NameOf(x));
  }

  /** An item with a canonical name reads as itself, to the byte. */
  lemma CanonicalItemRead(data: seq<byte>, at: nat, next: nat, x: Item)
    requires HoldsItem(data, at, next, x) && CanonicalName(NameOf(x))
    ensures ReadItem(data, at, x) == Some(next)
  {
    var mid := HeldNameRead(data, at, next, x);
    NamedItemRead(data, at, mid, next, x);
  }

  /** Only an item with a canonical name, or with the root name, can read as itself. */
  lemma ChangedItemRead(data: seq<byte>, at: nat, next: nat, x: Item)
    requires HoldsItem(data, at, next, x) && !CanonicalName(NameOf(x)) && NameOf(x) != []
    ensures ReadItem(data, at, x) == None
  {
    var mid := ItemHeld(data, at, next, x);
    ReadItemParts(data, at, x);
    if Strip(NameOf(x), {'.'}) != [] {
      if ReadItem(data, at, x).Some? {
        ReadBackIsCanonical(data, at, NameOf(x));
      }
    } else {
      RootBytes(NameOf(x));
      assert data[at] == data[at..at + 2][0];
      ZeroIsRoot(data, at);
    }
  }

  // ---------------------------------------------------------------- root names

  /** Nothing but zeros from `from` up to `to`. */
  predicate ZeroBytes(data: seq<byte>, from: nat, to: nat) {
    to <= |data| && forall i :: from <= i < to ==> data[i] == 0
  }

  lemma ZeroIsRoot(data: seq<byte>, at: nat)
    requires at < |data| && data[at] == 0
    ensures NameAt(data, at) == Success(([], at + 1))
  {
    NameAtForm(data, at, Root);
  }

  /** The root name, with or without dots, is written as two zeros. */
  lemma RootBytes(name: string)
    requires Strip(name, {'.'}) == []
    ensures EncodableName(name) && NameBytes(name) == [0, 0]
  {
    assert NameLabels(name) == [[]];
    assert LabelsBytes([[]]) == LabelBytes([]) + LabelsBytes([[]][1..]);
  }

  /** The root item that reads as itself although its name is written one byte too long: all its bytes
      are zeros. */
  predicate ZeroRoot(x: Item) {
    match x
    case QuestionItem(q) => q == DNSQuestion([], 0, 0)
    case RecordItem(rr) => rr == DNSRecord([], 0, 0, 0, [])
  }

  /** Behind zeros, a word read too early is the word that stands there only if both are zero. */
  lemma ShiftedWord(data: seq<byte>, early: nat, at: nat)
    requires early < at && at + 2 <= |data| && ZeroBytes(data, early, at)
    ensures U16(data, early) == U16(data, at) <==> ZeroBytes(data, at, at + 2)
  {
    if U16(data, early) == U16(data, at) {
      assert data[early] == 0;
      assert early + 1 < at ==> data[early + 1] == 0;
    }
  }

  lemma ShiftedLong(data: seq<byte>, early: nat, at: nat)
    requires early < at && at + 4 <= |data| && ZeroBytes(data, early, at)
    ensures U32(data, early) == U32(data, at) <==> ZeroBytes(data, at, at + 4)
  {
    ShiftedWord(data, early, at);
    if U16(data, early) == U16(data, at) {
      ShiftedWord(data, early + 2, at + 2);
    }
  }

  lemma ShiftedQuestion(data: seq<byte>, early: nat, at: nat, q: DNSQuestion)
    requires early < at && ZeroBytes(data, early, at) && QuestionFieldsAt(data, at, q)
    ensures QuestionFieldsAt(data, early, q) <==> q.qtype == 0 && q.qclass == 0
    ensures QuestionFieldsAt(data, early, q) ==> ZeroBytes(data, early, at + 4)
  {
    ShiftedWord(data, early, at);
    if U16(data, early) == U16(data, at) {
      ShiftedWord(data, early + 2, at + 2);
    }
  }

  lemma ShiftedRecord(data: seq<byte>, early: nat, at: nat, rr: DNSRecord)
    requires early < at && ZeroBytes(data, early, at) && RecordFieldsAt(data, at, rr)
    ensures RecordFieldsAt(data, early, rr) <==> rr.rtype == 0 && rr.rclass == 0 && rr.ttl == 0 && rr.rdata == []
    ensures RecordFieldsAt(data, early, rr) ==> ZeroBytes(data, early, at + 10)
  {
    ShiftedWord(data, early, at);
    if U16(data, early) == U16(data, at) {
      ShiftedWord(data, early + 2, at + 2);
      if U16(data, early + 2) == U16(data, at + 2) {
        ShiftedLong(data, early + 4, at + 4);
        if U32(data, early + 4) == U32(data, at + 4) {
          ShiftedWord(data, early + 8, at + 8);
        }
      }
    }
  }

  lemma ShiftedFields(data: seq<byte>, early: nat, at: nat, x: Item)
    requires early < at && ZeroBytes(data, early, at) && FieldsAt(data, at, x) && NameOf(x) == []
    ensures FieldsAt(data, early, x) <==> ZeroRoot(x)
    ensures ZeroRoot(x) ==> ZeroBytes(data, early, at + FieldsSize(x))
  {
    match x
    case QuestionItem(q) => ShiftedQuestion(data, early, at, q);
    case RecordItem(rr) => ShiftedRecord(data, early, at, rr);
  }

  lemma RootHeld(data: seq<byte>, at: nat, name: string)
    requires Strip(name, {'.'}) == [] && Holds(data, at, [0, 0])
    ensures EncodableName(name) && |NameBytes(name)| == 2 && ZeroBytes(data, at, at + 2)
  {
    RootBytes(name);
    assert data[at] == data[at..at + 2][0] && data[at + 1] == data[at..at + 2][1];
  }

  lemma RootItemHeld(data: seq<byte>, at: nat, next: nat, x: Item)
    requires HoldsItem(data, at, next, x) && NameOf(x) == []
    ensures ZeroBytes(data, at, at + 2) && FieldsAt(data, at + 2, x) && next == at + 2 + FieldsSize(x)
  {
    var mid := ItemHeld(data, at, next, x);
    assert Strip<char>(NameOf(x), {'.'}) == [];
    RootBytes(NameOf(x));
    RootHeld(data, at, NameOf(x));
  }

  /** An item with the root name, read at or before its place behind nothing but zeros: if it reads as
      itself, its own bytes are zeros too, and the parser falls behind by one more of them. */
  lemma RootItemRead(data: seq<byte>, early: nat, at: nat, next: nat, x: Item) returns (behind: nat)
    requires early <= at && ZeroBytes(data, early, at)
    requires HoldsItem(data, at, next, x) && NameOf(x) == []
    ensures ReadItem(data, early, x) == if ZeroRoot(x) then Some(behind) else None
    ensures ZeroRoot(x) ==> behind < next && ZeroBytes(data, behind, next)
  {
    RootItemHeld(data, at, next, x);
    ShiftedFields(data, early + 1, at + 2, x);
    ZeroIsRoot(data, early);
    ReadItemParts(data, early, x);
    behind := early + 1 + FieldsSize(x);
  }

  /** Another item than a root item is not found on a zero. */
  lemma ItemMissed(data: seq<byte>, early: nat, x: Item)
    requires early < |data| && data[early] == 0 && NameOf(x) != []
    ensures ReadItem(data, early, x) == None
  {
    ZeroIsRoot(data, early);
    ReadItemParts(data, early, x);
  }

  // ---------------------------------------------------------------- many items

  predicate CanonicalItems(xs: seq<Item>) {
    forall i :: 0 <= i < |xs| ==> CanonicalName(NameOf(xs[i]))
  }

  predicate ZeroRoots(xs: seq<Item>) {
    forall i :: 0 <= i < |xs| ==> ZeroRoot(xs[i])
  }

  /** Items that survive the wire: canonical names up to some item, from which on there are only
      all-zero root items. */
  predicate SurvivesWire(xs: seq<Item>) {
    xs != [] ==> if CanonicalName(NameOf(xs[0])) then SurvivesWire(xs[1..]) else ZeroRoots(xs)
  }

  predicate HoldsItems(data: seq<byte>, at: nat, xs: seq<Item>) {
    EncodableItems(xs) && Holds(data, at, ItemsBytes(xs))
  }

  lemma ItemsHeld(data: seq<byte>, at: nat, xs: seq<Item>) returns (next: nat)
    requires xs != [] && HoldsItems(data, at, xs)
    ensures HoldsItem(data, at, next, xs[0]) && HoldsItems(data, next, xs[1..])
  {
    assert Encoded(xs)[1..] == Encoded(xs[1..]);
    HoldsConcat(data, at, ItemBytes(xs[0]), ItemsBytes(xs[1..]));
    next := at + |ItemBytes(xs[0])|;
  }

  lemma ZeroRootsCons(xs: seq<Item>)
    requires xs != []
    ensures ZeroRoots(xs) <==> ZeroRoot(xs[0]) && ZeroRoots(xs[1..])
  {
    if ZeroRoot(xs[0]) && ZeroRoots(xs[1..]) {
      forall i | 0 <= i < |xs|
        ensures ZeroRoot(xs[i])
      {
        assert i > 0 ==> xs[i] == xs[1..][i - 1];
      }
    }
  }

  /** One step of a reading: where to go on, if the first item reads as itself. */
  lemma ReadOn(data: seq<byte>, at: nat, xs: seq<Item>, next: Option<nat>)
    requires xs != [] && ReadItem(data, at, xs[0]) == next
    ensures ReadItems(data, at, xs).Some? <==> next.Some? && ReadItems(data, next.value, xs[1..]).Some?
  {
  }

  /** What is left to read once the parser has fallen behind, on zeros: it must be all zeros too. */
  lemma {:induction false} ItemsReadBehind(data: seq<byte>, early: nat, at: nat, xs: seq<Item>)
    requires early < at && ZeroBytes(data, early, at) && HoldsItems(data, at, xs)
    ensures ReadItems(data, early, xs).Some? <==> ZeroRoots(xs)
    decreases |xs|
  {
    if xs != [] {
      ZeroRootsCons(xs);
      var next := ItemsHeld(data, at, xs);
      if NameOf(xs[0]) == [] {
        var behind := RootItemRead(data, early, at, next, xs[0]);
        ReadOn(data, early, xs, if ZeroRoot(xs[0]) then Some(behind) else None);
        if ZeroRoot(xs[0]) {
          ItemsReadBehind(data, behind, next, xs[1..]);
        }
      } else {
        ItemMissed(data, early, xs[0]);
        ReadOn(data, early, xs, None);
      }
    }
  }

  /** Written items are read back exactly if they survive the wire. */
  lemma {:induction false} ItemsRoundTrip(data: seq<byte>, at: nat, xs: seq<Item>)
    requires HoldsItems(data, at, xs)
    ensures ReadItems(data, at, xs).Some? <==> SurvivesWire(xs)
    decreases |xs|
  {
    if xs != [] {
      ZeroRootsCons(xs);
      var next := ItemsHeld(data, at, xs);
      if CanonicalName(NameOf(xs[0])) {
        CanonicalItemRead(data, at, next, xs[0]);
        ReadOn(data, at, xs, Some(next));
        ItemsRoundTrip(data, next, xs[1..]);
      } else if NameOf(xs[0]) == [] {
        var behind := RootItemRead(data, at, at, next, xs[0]);
        ReadOn(data, at, xs, if ZeroRoot(xs[0]) then Some(behind) else None);
        if ZeroRoot(xs[0]) {
          ItemsReadBehind(data, behind, next, xs[1..]);
        }
      } else {
        ChangedItemRead(data, at, next, xs[0]);
        ReadOn(data, at, xs, None);
      }
    }
  }

  /** Items of types other than 0 survive exactly if their names are canonical. */
  lemma {:induction false} TypedItemsSurvive(xs: seq<Item>)
    requires forall i :: 0 <= i < |xs| ==> TypeOf(xs[i]) != 0
    ensures SurvivesWire(xs) <==> CanonicalItems(xs)
  {
    if xs != [] {
      TypedItemsSurvive(xs[1..]);
      CanonicalCons(xs);
    }
  }

  lemma CanonicalCons(xs: seq<Item>)
    requires xs != []
    ensures CanonicalItems(xs) <==> CanonicalName(NameOf(xs[0])) && CanonicalItems(xs[1..])
  {
    if CanonicalName(NameOf(xs[0])) && CanonicalItems(xs[1..]) {
      forall i | 0 <= i < |xs|
        ensures CanonicalName(NameOf(xs[i]))
      {
        assert i > 0 ==> xs[i] == xs[1..][i - 1];
      }
    }
  }

  lemma {:induction false} CanonicalItemsSurvive(xs: seq<Item>)
    requires CanonicalItems(xs)
    ensures SurvivesWire(xs)
  {
    if xs != [] {
      CanonicalCons(xs);
      CanonicalItemsSurvive(xs[1..]);
    }
  }

  // ---------------------------------------------------------------- the message

  /** Shifting and masking a word made of adjacent fields gives the fields back. */
  lemma FieldsUnpack(a: nat, b: nat, c: nat, d: nat, e: nat, f: nat, g: nat, h: nat, w: nat)
    requires a < 2 && b < 16 && c < 2 && d < 2 && e < 2 && f < 2 && g < 8 && h < 16
    requires w == a * 0x8000 + b * 0x800 + c * 0x400 + d * 0x200 + e * 0x100 + f * 0x80 + g * 0x10 + h
    ensures w / 0x8000 % 2 == a && w / 0x800 % 16 == b && w / 0x400 % 2 == c && w / 0x200 % 2 == d
    ensures w / 0x100 % 2 == e && w / 0x80 % 2 == f && w / 0x10 % 8 == g && w / 1 % 16 == h
  {
    assert w / 0x10 == a * 0x800 + b * 0x80 + c * 0x40 + d * 0x20 + e * 0x10 + f * 8 + g;
    assert w / 0x80 == a * 0x100 + b * 0x10 + c * 8 + d * 4 + e * 2 + f;
    assert w / 0x100 == a * 0x80 + b * 8 + c * 4 + d * 2 + e;
    assert w / 0x200 == a * 0x40 + b * 4 + c * 2 + d;
    assert w / 0x400 == a * 0x20 + b * 2 + c;
    assert w / 0x800 == a * 0x10 + b;
  }

  /** The header, without the sections. */
  function Bare(m: DNSMessage): DNSMessage {
    m.(questions := [], answers := [], authorities := [], additionals := [])
  }

  lemma HeaderFields(m: DNSMessage)
    requires Fits16(m.id)
    ensures Header(m.id, FlagWord(m)) ==
            DNSMessage(m.id, m.qr % 2, m.opcode % 16, m.aa % 2, m.tc % 2, m.rd % 2, m.ra % 2, m.z % 8, m.rcode % 16,
                       [], [], [], [])
  {
    FieldsUnpack(m.qr % 2, m.opcode % 16, m.aa % 2, m.tc % 2, m.rd % 2, m.ra % 2, m.z % 8, m.rcode % 16, FlagWord(m));
  }

  /** The header fields come back exactly when each fits its bits. */
  lemma HeaderRoundTrip(m: DNSMessage)
    requires Fits16(m.id)
    ensures Header(m.id, FlagWord(m)) == Bare(m) <==> FlagsInRange(m)
  {
    HeaderFields(m);
  }

  /** The header by its bytes, as section 4.1.1 of RFC 1035 draws it: the id, the flags from the highest
      bit to the lowest, and the sizes of the four sections. */
  lemma HeaderLayout(data: seq<byte>, qr: nat, opcode: nat, aa: nat, tc: nat, rd: nat, ra: nat, z: nat, rcode: nat)
    requires Parsed(data).Success?
    requires qr < 2 && opcode < 16 && aa < 2 && tc < 2 && rd < 2 && ra < 2 && z < 8 && rcode < 16
    requires data[2] == qr * 128 + opcode * 8 + aa * 4 + tc * 2 + rd && data[3] == ra * 128 + z * 16 + rcode
    ensures var m := Parsed(data).value;
            && m.id == (data[0] as int) * 256 + data[1]
            && (m.qr, m.opcode, m.aa, m.tc, m.rd, m.ra, m.z, m.rcode) == (qr, opcode, aa, tc, rd, ra, z, rcode)
            && |m.questions| == (data[4] as int) * 256 + data[5] && |m.answers| == (data[6] as int) * 256 + data[7]
            && |m.authorities| == (data[8] as int) * 256 + data[9] && |m.additionals| == (data[10] as int) * 256 + data[11]
  {
    FieldsUnpack(qr, opcode, aa, tc, rd, ra, z, rcode, U16(data, 2));
  }

  /** A question by its bytes: behind the name its type and its class, two bytes each. */
  lemma QuestionLayout(data: seq<byte>, at: nat, name: string, end: nat)
    requires NameAt(data, at) == Success((name, end)) && end + 4 <= |data|
    ensures QuestionAt(data, at) ==
            Success((DNSQuestion(name, (data[end] as int) * 256 + data[end + 1], (data[end + 2] as int) * 256 + data[end + 3]), end + 4))
  {
  }

  /** A record by its bytes: behind the name type, class, four bytes of lifetime, the length of the
      data, and the data. */
  lemma RecordLayout(data: seq<byte>, at: nat, name: string, end: nat, rdata: seq<byte>, rest: seq<byte>)
    requires NameAt(data, at) == Success((name, end)) && end + 10 <= |data|
    requires data[end + 10..] == rdata + rest && |rdata| == (data[end + 8] as int) * 256 + data[end + 9]
    ensures var r := RecordAt(data, at);
            && r.Success? && r.value.1 == end + 10 + |rdata|
            && r.value.0.name == name && r.value.0.rdata == rdata
            && r.value.0.rtype == (data[end] as int) * 256 + data[end + 1]
            && r.value.0.rclass == (data[end + 2] as int) * 256 + data[end + 3]
            && r.value.0.ttl ==
                 ((data[end + 4] as int * 256 + data[end + 5]) * 256 + data[end + 6]) * 256 + data[end + 7]
  {
    assert data[end + 10..end + 10 + |rdata|] == data[end + 10..][..|rdata|] == rdata;
  }

  /** The items of a parsed packet lie behind the header one after the other: questions, answers,
      authorities and additional records, in this order. */
  lemma ItemsInOrder(data: seq<byte>)
    requires Parsed(data).Success?
    ensures var m := Parsed(data).value;
            ReadItems(data, 12, QuestionItems(m.questions) + RecordItems(m.answers)
                                + RecordItems(m.authorities) + RecordItems(m.additionals)).Some?
  {
    var m := Parsed(data).value;
    var q, a, u, d := QuestionItems(m.questions), RecordItems(m.answers), RecordItems(m.authorities), RecordItems(m.additionals);
    var o1 := QuestionsAt(data, 12, U16(data, 4)).value.1;
    var o2 := RecordsAt(data, o1, U16(data, 6)).value.1;
    var o3 := RecordsAt(data, o2, U16(data, 8)).value.1;
    QuestionsReadAsItems(data, 12, m.questions);
    RecordsReadAsItems(data, o1, m.answers);
    RecordsReadAsItems(data, o2, m.authorities);
    RecordsReadAsItems(data, o3, m.additionals);
    ReadItemsConcat(data, 12, q, a);
    ReadItemsConcat(data, 12, q + a, u);
    ReadItemsConcat(data, 12, q + a + u, d);
  }

  /** The twelve header bytes of `b` announce `m`. */
  predicate HoldsHeader(b: seq<byte>, m: DNSMessage) {
    && |b| >= 12 && U16(b, 0) == m.id && U16(b, 2) == FlagWord(m)
    && U16(b, 4) == |m.questions| && U16(b, 6) == |m.answers|
    && U16(b, 8) == |m.authorities| && U16(b, 10) == |m.additionals|
  }

  lemma HeaderRead(m: DNSMessage)
    requires Encodable(m)
    ensures HoldsHeader(MessageBytes(m), m)
  {
    HeaderWords(m);
    var h, b := HeaderBytes(m), MessageBytes(m);
    assert forall i :: 0 <= i < 12 ==> b[i] == h[i];
  }

  lemma HeaderWords(m: DNSMessage)
    requires Encodable(m)
    ensures HoldsHeader(HeaderBytes(m), m)
  {
  }

  /** A serialized message is its header and its items. */
  lemma MessageIsItems(m: DNSMessage)
    requires Encodable(m)
    ensures HoldsItems(MessageBytes(m), 12, Items(m))
  {
    var q, a, u, d := QuestionItems(m.questions), RecordItems(m.answers), RecordItems(m.authorities), RecordItems(m.additionals);
    QuestionsAreItems(m.questions);
    RecordsAreItems(m.answers);
    RecordsAreItems(m.authorities);
    RecordsAreItems(m.additionals);
    ItemsBytesConcat(u, d);
    ItemsBytesConcat(a, u + d);
    ItemsBytesConcat(q, a + (u + d));
    FiveParts(HeaderBytes(m), ItemsBytes(q), ItemsBytes(a), ItemsBytes(u), ItemsBytes(d));
  }

  lemma FiveParts(h: seq<byte>, q: seq<byte>, a: seq<byte>, u: seq<byte>, d: seq<byte>)
    ensures Holds(h + q + a + u + d, |h|, q + (a + (u + d)))
  {
    assert h + q + a + u + d == h + (q + (a + (u + d)));
  }

  /** The question loop and the three record loops read exactly the sections of `m`. */
  ghost predicate ReadsSections(b: seq<byte>, m: DNSMessage) {
    var o1 := ReadQuestions(b, 12, m.questions);
    o1.Some? && ReadsRecords(b, o1.value, m.answers, m.authorities, m.additionals)
  }

  ghost predicate ReadsRecords(b: seq<byte>, at: nat, answers: seq<DNSRecord>, authorities: seq<DNSRecord>,
                               additionals: seq<DNSRecord>) {
    var o2 := ReadRecords(b, at, answers);
    && o2.Some?
    && var o3 := ReadRecords(b, o2.value, authorities);
       o3.Some? && ReadRecords(b, o3.value, additionals).Some?
  }

  lemma ParsedIsSections(b: seq<byte>, m: DNSMessage)
    requires HoldsHeader(b, m)
    ensures Parsed(b) == Success(m) <==> Header(m.id, FlagWord(m)) == Bare(m) && ReadsSections(b, m)
  {
  }

  lemma RecordsAreRead(b: seq<byte>, at: nat, answers: seq<DNSRecord>, authorities: seq<DNSRecord>,
                       additionals: seq<DNSRecord>)
    ensures ReadsRecords(b, at, answers, authorities, additionals) <==>
            ReadItems(b, at, RecordItems(answers) + (RecordItems(authorities) + RecordItems(additionals))).Some?
  {
    var a, u, d := RecordItems(answers), RecordItems(authorities), RecordItems(additionals);
    ReadItemsConcat(b, at, a, u + d);
    RecordsReadAsItems(b, at, answers);
    var o2 := ReadItems(b, at, a);
    if o2.Some? {
      ReadItemsConcat(b, o2.value, u, d);
      RecordsReadAsItems(b, o2.value, authorities);
      var o3 := ReadItems(b, o2.value, u);
      if o3.Some? {
        RecordsReadAsItems(b, o3.value, additionals);
      }
    }
  }

  lemma SectionsAreItems(b: seq<byte>, m: DNSMessage)
    ensures ReadsSections(b, m) <==> ReadItems(b, 12, Items(m)).Some?
  {
    var q, a, u, d := QuestionItems(m.questions), RecordItems(m.answers), RecordItems(m.authorities), RecordItems(m.additionals);
    ReadItemsConcat(b, 12, q, a + (u + d));
    QuestionsReadAsItems(b, 12, m.questions);
    var o1 := ReadItems(b, 12, q);
    if o1.Some? {
      RecordsAreRead(b, o1.value, m.answers, m.authorities, m.additionals);
    }
  }

  /** Serializing is undone by parsing exactly for messages whose flags are in range and whose items
      survive the wire. */
  lemma MessageRoundTrip(m: DNSMessage)
    requires Encodable(m)
    ensures Parsed(MessageBytes(m)) == Success(m) <==> FlagsInRange(m) && SurvivesWire(Items(m))
  {
    HeaderRead(m);
    HeaderRoundTrip(m);
    MessageIsItems(m);
    ItemsRoundTrip(MessageBytes(m), 12, Items(m));
    ParsedIsSections(MessageBytes(m), m);
    SectionsAreItems(MessageBytes(m), m);
  }

  /** No question and no record has type 0, which the RFC does not assign. */
  predicate Typed(m: DNSMessage) {
    forall i :: 0 <= i < |Items(m)| ==> TypeOf(Items(m)[i]) != 0
  }

  lemma CanonicalNamesAreItems(m: DNSMessage)
    ensures CanonicalNames(m) <==> CanonicalItems(Items(m))
  {
    var q, a, u, d := QuestionItems(m.questions), RecordItems(m.answers), RecordItems(m.authorities), RecordItems(m.additionals);
    CanonicalConcat(q, a + (u + d));
    CanonicalConcat(a, u + d);
    CanonicalConcat(u, d);
    assert CanonicalQuestions(m.questions) <==> CanonicalItems(q);
    assert CanonicalRecords(m.answers) <==> CanonicalItems(a);
    assert CanonicalRecords(m.authorities) <==> CanonicalItems(u);
    assert CanonicalRecords(m.additionals) <==> CanonicalItems(d);
  }

  lemma CanonicalConcat(x: seq<Item>, y: seq<Item>)
    ensures CanonicalItems(x + y) <==> CanonicalItems(x) && CanonicalItems(y)
  {
    if CanonicalItems(x + y) {
      assert forall i :: 0 <= i < |x| ==> x[i] == (x + y)[i];
      assert forall i :: 0 <= i < |y| ==> y[i] == (x + y)[|x| + i];
    }
  }

  /** For messages without type 0: exactly if every name is canonical. A root name, as in every OPT
      record, does not come back. */
  lemma TypedRoundTrip(m: DNSMessage)
    requires Encodable(m) && Typed(m)
    ensures Parsed(MessageBytes(m)) == Success(m) <==> FlagsInRange(m) && CanonicalNames(m)
  {
    MessageRoundTrip(m);
    TypedItemsSurvive(Items(m));
    CanonicalNamesAreItems(m);
  }

  /** Every message with in-range flags and canonical names survives serializing and parsing. */
  lemma RoundTrips(m: DNSMessage)
    requires Encodable(m) && FlagsInRange(m) && CanonicalNames(m)
    ensures Parsed(MessageBytes(m)) == Success(m)
  {
    MessageRoundTrip(m);
    CanonicalNamesAreItems(m);
    CanonicalItemsSurvive(Items(m));
  }

  // ---------------------------------------------------------------- what parsing guarantees

  lemma {:induction false} QuestionsFit(data: seq<byte>, offset: nat, n: nat)
    requires QuestionsAt(data, offset, n).Success?
    ensures forall i :: 0 <= i < n ==>
              var q := QuestionsAt(data, offset, n).value.0[i]; Fits16(q.qtype) && Fits16(q.qclass)
  {
    if n > 0 {
      QuestionsFit(data, offset, n - 1);
    }
  }

  predicate FieldsFit(rr: DNSRecord) {
    Fits16(rr.rtype) && Fits16(rr.rclass) && Fits32(rr.ttl) && Fits16(|rr.rdata|)
  }

  lemma {:induction false} RecordsFit(data: seq<byte>, offset: nat, n: nat)
    requires RecordsAt(data, offset, n).Success?
    ensures forall i :: 0 <= i < n ==> FieldsFit(RecordsAt(data, offset, n).value.0[i])
  {
    if n > 0 {
      RecordsFit(data, offset, n - 1);
    }
  }

  /** Everything but the names of a parsed message fits its fields. */
  predicate MessageFits(m: DNSMessage) {
    && FlagsInRange(m) && Fits16(m.id)
    && Fits16(|m.questions|) && Fits16(|m.answers|) && Fits16(|m.authorities|) && Fits16(|m.additionals|)
    && (forall i :: 0 <= i < |m.questions| ==> Fits16(m.questions[i].qtype) && Fits16(m.questions[i].qclass))
    && (forall i :: 0 <= i < |m.answers| ==> FieldsFit(m.answers[i]))
    && (forall i :: 0 <= i < |m.authorities| ==> FieldsFit(m.authorities[i]))
    && (forall i :: 0 <= i < |m.additionals| ==> FieldsFit(m.additionals[i]))
  }

  lemma ParsedFits(data: seq<byte>)
    requires Parsed(data).Success?
    ensures MessageFits(Parsed(data).value)
  {
    var q, a, u := U16(data, 4), U16(data, 6), U16(data, 8);
    var o1 := QuestionsAt(data, 12, q).value.1;
    var o2 := RecordsAt(data, o1, a).value.1;
    var o3 := RecordsAt(data, o2, u).value.1;
    QuestionsFit(data, 12, q);
    RecordsFit(data, o1, a);
    RecordsFit(data, o2, u);
    RecordsFit(data, o3, U16(data, 10));
  }

  lemma {:induction false} SurvivorsHaveNames(xs: seq<Item>)
    requires SurvivesWire(xs)
    ensures NamedItems(xs)
  {
    if xs != [] {
      if CanonicalName(NameOf(xs[0])) {
        CanonicalIsEncodable(NameOf(xs[0]));
        SurvivorsHaveNames(xs[1..]);
        assert forall i :: 1 <= i < |xs| ==> xs[i] == xs[1..][i - 1];
      } else {
        assert Strip<char>([], {'.'}) == [];
        RootBytes([]);
        assert forall i :: 0 <= i < |xs| ==> ZeroRoot(xs[i]) && NameOf(xs[i]) == [];
      }
    }
  }

  predicate NamedItems(xs: seq<Item>) {
    forall i :: 0 <= i < |xs| ==> EncodableName(NameOf(xs[i]))
  }

  lemma NamedConcat(x: seq<Item>, y: seq<Item>)
    requires NamedItems(x + y)
    ensures NamedItems(x) && NamedItems(y)
  {
    assert forall i :: 0 <= i < |x| ==> x[i] == (x + y)[i];
    assert forall i :: 0 <= i < |y| ==> y[i] == (x + y)[|x| + i];
  }

  lemma NamedQuestions(qs: seq<DNSQuestion>)
    requires NamedItems(QuestionItems(qs))
    ensures forall i :: 0 <= i < |qs| ==> EncodableName(qs[i].qname)
  {
    assert forall i :: 0 <= i < |qs| ==> NameOf(QuestionItems(qs)[i]) == qs[i].qname;
  }

  lemma NamedRecords(rrs: seq<DNSRecord>)
    requires NamedItems(RecordItems(rrs))
    ensures forall i :: 0 <= i < |rrs| ==> EncodableName(rrs[i].name)
  {
    assert forall i :: 0 <= i < |rrs| ==> NameOf(RecordItems(rrs)[i]) == rrs[i].name;
  }

  lemma FittingIsEncodable(m: DNSMessage)
    requires MessageFits(m) && NamedItems(Items(m))
    ensures Encodable(m)
  {
    var q, a, u, d := QuestionItems(m.questions), RecordItems(m.answers), RecordItems(m.authorities), RecordItems(m.additionals);
    NamedConcat(q, a + (u + d));
    NamedConcat(a, u + d);
    NamedConcat(u, d);
    NamedQuestions(m.questions);
    NamedRecords(m.answers);
    NamedRecords(m.authorities);
    NamedRecords(m.additionals);
  }

  /** A parsed message can be serialized again, under any 16-bit id, and parses back to itself exactly
      if its items survive the wire; without type 0, exactly if its names are canonical. */
  lemma ParsedReencodes(data: seq<byte>, id: int)
    requires Parsed(data).Success? && Fits16(id)
    ensures var m := Parsed(data).value.(id := id);
            && (Encodable(m) && Parsed(MessageBytes(m)) == Success(m) <==> SurvivesWire(Items(m)))
            && (Typed(m) ==> (SurvivesWire(Items(m)) <==> CanonicalNames(m)))
  {
    var m := Parsed(data).value.(id := id);
    ParsedFits(data);
    FittingReencodes(m);
  }

  lemma FittingReencodes(m: DNSMessage)
    requires MessageFits(m)
    ensures Encodable(m) && Parsed(MessageBytes(m)) == Success(m) <==> SurvivesWire(Items(m))
    ensures Typed(m) ==> (SurvivesWire(Items(m)) <==> CanonicalNames(m))
  {
    if SurvivesWire(Items(m)) {
      SurvivorsHaveNames(Items(m));
      FittingIsEncodable(m);
    }
    if Encodable(m) {
      MessageRoundTrip(m);
    }
    if Typed(m) {
      TypedItemsSurvive(Items(m));
      CanonicalNamesAreItems(m);
    }
  }

  // ---------------------------------------------------------------- the exceptions, concretely

  /** The root name is written as two zero bytes and read as one: the type of a root question comes
      back shifted by a byte. */
  lemma RootNameIsShifted()
    ensures var q := DNSQuestion("", TYPE_A, CLASS_IN);
            && EncodableQuestion(q) && QuestionBytes(q) == [0, 0, 0, 1, 0, 1]
            && QuestionAt(QuestionBytes(q), 0) == Success((DNSQuestion("", 0, 256), 5))
  {
    assert Strip("", {'.'}) == "";
    assert NameLabels("") == [""];
    assert LabelsBytes([""]) == LabelBytes("") + LabelsBytes([""][1..]);
    var b: seq<byte> := [0, 0, 0, 1, 0, 1];
    NameAtForm(b, 0, Root);
  }

  /** A label of 192 bytes is encodable, yet it is read back as a pointer: here one to itself. */
  lemma LongLabelLoops(text: string)
    requires |text| == 0xC0 && IsAscii(text) && text[0] as int == 0
    ensures NameAt(LabelBytes(text) + [0], 0) == Failure(LoopDetected)
  {
    var b := LabelBytes(text) + [0];
    assert b[0] == 0xC0 && b[1] == 0;
    assert PointerTarget(0xC0, 0) == 0;
    if HasForm(b, 0) {
      PointerStep(b, 0);
      NotItsOwnRest(FormAt(b, 0));
    }
  }

  lemma NotItsOwnRest(w: WireName)
    ensures w.Pointer? ==> w.rest != w
  {
    if w.Pointer? {
      assert Size(w) == 1 + Size(w.rest);
    }
  }
}
