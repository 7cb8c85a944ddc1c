/**
 Domain names in DNS messages (sections 3.1 and 4.1.4 of RFC 1035): decompression along pointers, and the
 question record built on it.
 */
module DnsNames {
  import opened Options

  type Byte = b: int | 0 <= b < 256

  type Label = seq<Byte>

  /** A parsed name: its text, and how many bytes it takes where it was read. */
  datatype Name = Name(text: seq<Byte>, consumed: nat)

  datatype Question = Question(qname: seq<Byte>, qtype: nat, qclass: nat, consumed: nat)

  const MAX_LABEL_LEN := 63
  const MAX_NAME_LEN := 255
  const MAX_JUMPS := 10

  const DOT: Byte := 46
  const HYPHEN: Byte := 45
  const UNDERSCORE: Byte := 95
  const QUESTION_MARK: Byte := 63

  // ----- what a name means -----

  predicate IsPointer(b: Byte) { b >= 0xC0 }

  function Target(packet: seq<Byte>, pos: nat): nat
    requires pos + 1 < |packet|
  {
    (packet[pos] as int) % 64 * 256 + packet[pos + 1]
  }

  /** The labels of the name at `pos`, following at most `jumps` pointers; none if it is malformed. */
  function Labels(packet: seq<Byte>, pos: nat, jumps: nat): Option<seq<Label>>
    decreases jumps, |packet| - pos
  {
    if pos >= |packet| then None
    else if IsPointer(packet[pos]) then
      if pos + 1 >= |packet| || Target(packet, pos) >= |packet| || jumps == 0 then None
      else Labels(packet, Target(packet, pos), jumps - 1)
    else if packet[pos] == 0 then Some([])
    else if packet[pos] > MAX_LABEL_LEN || pos + 1 + packet[pos] > |packet| then None
    else
      var next := pos + 1 + packet[pos];
      Prepend([packet[pos + 1..next]], Labels(packet, next, jumps))
  }

  /** The labels read at `pos` before the name ends or its first fault shows. */
  function Legible(packet: seq<Byte>, pos: nat, jumps: nat): (labels: seq<Label>)
    ensures forall i :: 0 <= i < |labels| ==> 1 <= |labels[i]| <= MAX_LABEL_LEN
    decreases jumps, |packet| - pos
  {
    if pos >= |packet| then []
    else if IsPointer(packet[pos]) then
      if pos + 1 >= |packet| || Target(packet, pos) >= |packet| || jumps == 0 then []
      else Legible(packet, Target(packet, pos), jumps - 1)
    else if packet[pos] == 0 || packet[pos] > MAX_LABEL_LEN || pos + 1 + packet[pos] > |packet| then []
    else
      var next := pos + 1 + packet[pos];
      [packet[pos + 1..next]] + Legible(packet, next, jumps)
  }

  function Prepend(front: seq<Label>, rest: Option<seq<Label>>): Option<seq<Label>> {
    if rest.None? then None else Some(front + rest.value)
  }

  /** The bytes the name takes at `pos`: up to and including its zero byte or its first pointer. */
  function Extent(packet: seq<Byte>, pos: nat): nat
    decreases |packet| - pos
  {
    if pos >= |packet| then 0
    else if IsPointer(packet[pos]) then 2
    else if packet[pos] == 0 then 1
    else 1 + packet[pos] + Extent(packet, pos + 1 + packet[pos])
  }

  predicate IsPrint(b: Byte) { 0x20 <= b <= 0x7E }

  function Shown(b: Byte): Byte { if IsPrint(b) then b else QUESTION_MARK }

  function Cleaned(l: Label): (r: Label)
    ensures |r| == |l|
  {
    seq(|l|, i requires 0 <= i < |l| => Shown(l[i]))
  }

  /** The labels' text, joined by dots. */
  function Dotted(labels: seq<Label>): seq<Byte> {
    if labels == [] then []
    else
      var last := |labels| - 1;
      Dotted(labels[..last]) + (if last == 0 then [] else [DOT]) + Cleaned(labels[last])
  }

  /** The name at `start`, if it is well formed and its text fits. */
  function NameAt(packet: seq<Byte>, start: nat): Option<Name> {
    var labels := Labels(packet, start, MAX_JUMPS);
    if labels.None? || |Dotted(labels.value)| >= MAX_NAME_LEN then None
    else Some(Name(Dotted(labels.value), Extent(packet, start)))
  }

  // ----- the text buffer -----

  /** The size of the buffer that callers pass for the text. */
  const BUFFER_SIZE := 256

  /**
   How much text is stored by the time the scan stops: a label is copied before the length of the text is checked,
   so the scan goes on while the text so far is short enough, and stops after the first label that is not.
   */
  function Stored(done: seq<Label>, rest: seq<Label>): nat
    decreases |rest|
  {
    if rest == [] || |Dotted(done)| >= MAX_NAME_LEN then |Dotted(done)|
    else Stored(done + [rest[0]], rest[1..])
  }

  /** No label takes a text that is still short enough beyond the buffer. */
  predicate FitsBuffer(labels: seq<Label>) {
    forall k: nat :: k < |labels| && |Dotted(labels[..k])| < MAX_NAME_LEN ==> |Dotted(labels[..k + 1])| <= BUFFER_SIZE
  }

  lemma DottedSnoc(done: seq<Label>, l: Label)
    ensures |Dotted(done)| + |l| <= |Dotted(done + [l])| <= |Dotted(done)| + 1 + |l|
  {
    assert (done + [l])[..|done|] == done;
  }

  /** At most 318 bytes of text are ever stored. */
  lemma {:induction false} StoredBound(done: seq<Label>, rest: seq<Label>)
    requires forall i :: 0 <= i < |rest| ==> |rest[i]| <= 63
    requires |Dotted(done)| <= 318
    ensures Stored(done, rest) <= 318
    decreases |rest|
  {
    if rest != [] && |Dotted(done)| < MAX_NAME_LEN {
      DottedSnoc(done, rest[0]);
      hide Dotted;
      StoredBound(done + [rest[0]], rest[1..]);
    }
  }

  /** What is stored fits the buffer if and only if no label takes a short text beyond it. */
  lemma StoredExact(labels: seq<Label>)
    ensures Stored([], labels) <= 256 <==> FitsBuffer(labels)
  {
    NothingDotted();
    StoredFrom(labels, 0);
    assert labels[..0] == [] && labels[0..] == labels;
  }

  lemma NothingDotted()
    ensures Dotted([]) == []
  {
  }

  lemma {:induction false} StoredFrom(labels: seq<Label>, m: nat)
    requires m <= |labels| && |Dotted(labels[..m])| <= BUFFER_SIZE
    ensures Stored(labels[..m], labels[m..]) <= BUFFER_SIZE <==>
            forall k: nat :: m <= k < |labels| && |Dotted(labels[..k])| < MAX_NAME_LEN ==>
              |Dotted(labels[..k + 1])| <= BUFFER_SIZE
    decreases |labels| - m
  {
    hide Dotted;
    var done, rest := labels[..m], labels[m..];
    if rest == [] {
    } else if |Dotted(done)| >= MAX_NAME_LEN {
      forall k: nat | m <= k < |labels| ensures |Dotted(labels[..k])| >= MAX_NAME_LEN {
        assert labels[..k] == done + labels[m..k];
        DottedGrows(done, labels[m..k]);
      }
    } else {
      assert labels[..m + 1] == done + [rest[0]] && labels[m + 1..] == rest[1..];
      if |Dotted(labels[..m + 1])| <= BUFFER_SIZE {
        StoredFrom(labels, m + 1);
      } else {
        assert Stored(done + [rest[0]], rest[1..]) == |Dotted(done + [rest[0]])|;
        assert |Dotted(labels[..m])| < MAX_NAME_LEN;
      }
    }
  }

  lemma {:induction false} LegibleLabels(packet: seq<Byte>, pos: nat, jumps: nat)
    requires Labels(packet, pos, jumps).Some?
    ensures Legible(packet, pos, jumps) == Labels(packet, pos, jumps).value
    decreases jumps, |packet| - pos
  {
    if IsPointer(packet[pos]) {
      LegibleLabels(packet, Target(packet, pos), jumps - 1);
    } else if packet[pos] != 0 {
      LegibleLabels(packet, pos + 1 + packet[pos], jumps);
    }
  }

  /** Every name that is returned has been stored inside the buffer. */
  lemma ReturnedFits(packet: seq<Byte>, start: nat)
    requires NameAt(packet, start).Some?
    ensures FitsBuffer(Legible(packet, start, MAX_JUMPS))
  {
    LegibleLabels(packet, start, MAX_JUMPS);
    var labels := Legible(packet, start, MAX_JUMPS);
    hide Dotted, Labels, Legible;
    forall k: nat | k < |labels| && |Dotted(labels[..k])| < MAX_NAME_LEN
      ensures |Dotted(labels[..k + 1])| <= BUFFER_SIZE
    {
      PrefixShorter(labels, k + 1);
    }
  }

  lemma PrefixShorter(labels: seq<Label>, k: nat)
    requires k <= |labels|
    ensures |Dotted(labels[..k])| <= |Dotted(labels)|
  {
    DottedGrows(labels[..k], labels[k..]);
    assert labels[..k] + labels[k..] == labels;
  }

  /** Labels of the given lengths. */
  function Sized(lengths: seq<nat>): seq<Label> {
    if lengths == [] then [] else Sized(lengths[..|lengths| - 1]) + [seq(lengths[|lengths| - 1], _ => 97)]
  }

  /** Not every name fits: labels of 63, 63, 63, 62 and 63 bytes, written out, are stored in 318 bytes and refused. */
  lemma LongLabels(packet: seq<Byte>, pos: nat)
    requires Writable(Sized([63, 63, 63, 62, 63])) && Holds(packet, pos, Stem(Sized([63, 63, 63, 62, 63])) + [0])
    ensures var labels := Legible(packet, pos, MAX_JUMPS);
            Stored([], labels) == 318 && !FitsBuffer(labels) && NameAt(packet, pos).None?
  {
    var labels := Sized([63, 63, 63, 62, 63]);
    hide Holds, Stem, Stored, FitsBuffer;
    LongParts();
    WrittenName(packet, pos, labels);
    LegibleLabels(packet, pos, MAX_JUMPS);
    StoredExact(labels);
  }

  lemma SizedStep(lengths: seq<nat>, n: nat)
    requires n > 0
    ensures Sized(lengths + [n]) == Sized(lengths) + [seq(n, _ => 97)]
    ensures |Dotted(Sized(lengths + [n]))| == |Dotted(Sized(lengths))| + (if lengths == [] then n else 1 + n)
    ensures |Sized(lengths)| == |lengths|
  {
    SizedCount(lengths);
    assert (lengths + [n])[..|lengths|] == lengths;
    var l: Label := seq(n, _ => 97);
    assert (Sized(lengths) + [l])[..|lengths|] == Sized(lengths);
  }

  lemma {:induction false} SizedCount(lengths: seq<nat>)
    ensures |Sized(lengths)| == |lengths|
  {
    if lengths != [] { SizedCount(lengths[..|lengths| - 1]); }
  }

  lemma LongParts()
    ensures Stored([], Sized([63, 63, 63, 62, 63])) == 318 == |Dotted(Sized([63, 63, 63, 62, 63]))|
  {
    NothingDotted();
    hide Dotted, Sized;
    NothingSized();
    var a := [63];
    var b, c, d, e := a + [63], a + [63] + [63], a + [63] + [63] + [62], a + [63] + [63] + [62] + [63];
    assert [] + [63] == a;
    SizedStep([], 63);
    SizedStep(a, 63);
    SizedStep(b, 63);
    SizedStep(c, 62);
    SizedStep(d, 63);
    assert e == [63, 63, 63, 62, 63];
    var x, y: Label, z: Label := Sized(e), seq(63, _ => 97), seq(62, _ => 97);
    assert x[..1] == Sized(a) && x[..2] == Sized(b) && x[..3] == Sized(c) && x[..4] == Sized(d) && x[..5] == x;
    assert x[..0] == [] && x[0..] == x && x[5..] == [];
    StoredStep(x, 0);
    StoredStep(x, 1);
    StoredStep(x, 2);
    StoredStep(x, 3);
    StoredStep(x, 4);
  }

  lemma NothingSized()
    ensures Sized([]) == []
  {
  }

  lemma StoredStep(labels: seq<Label>, m: nat)
    requires m < |labels| && |Dotted(labels[..m])| < MAX_NAME_LEN
    ensures Stored(labels[..m], labels[m..]) == Stored(labels[..m + 1], labels[m + 1..])
  {
    assert labels[..m + 1] == labels[..m] + [labels[m..][0]] && labels[m + 1..] == labels[m..][1..];
  }

  // ----- facts about labels -----

  lemma {:induction false} ExtentInside(packet: seq<Byte>, pos: nat, jumps: nat)
    requires Labels(packet, pos, jumps).Some?
    ensures 1 <= Extent(packet, pos) <= |packet| - pos
    decreases |packet| - pos
  {
    if !IsPointer(packet[pos]) && packet[pos] != 0 {
      ExtentInside(packet, pos + 1 + packet[pos], jumps);
    }
  }

  /** A name that parses takes at least one byte and stays inside the packet. */
  lemma NameInside(packet: seq<Byte>, start: nat)
    requires NameAt(packet, start).Some?
    ensures 1 <= NameAt(packet, start).value.consumed <= |packet| - start
  {
    ExtentInside(packet, start, MAX_JUMPS);
  }

  lemma {:induction false} DottedGrows(done: seq<Label>, rest: seq<Label>)
    ensures |Dotted(done)| <= |Dotted(done + rest)|
    ensures done != [] && rest != [] ==> |Dotted(done)| < |Dotted(done + rest)|
  {
    if rest == [] {
      assert done + rest == done;
    } else {
      var front := rest[..|rest| - 1];
      DottedGrows(done, front);
      assert (done + rest)[..|done| + |rest| - 1] == done + front;
    }
  }

  /** Allowing more pointers never changes a name that was already found. */
  lemma {:induction false} MoreJumps(packet: seq<Byte>, pos: nat, jumps: nat, more: nat)
    requires jumps <= more && Labels(packet, pos, jumps).Some?
    ensures Labels(packet, pos, more) == Labels(packet, pos, jumps)
    decreases jumps, |packet| - pos
  {
    if IsPointer(packet[pos]) {
      MoreJumps(packet, Target(packet, pos), jumps - 1, more - 1);
    } else if packet[pos] != 0 {
      MoreJumps(packet, pos + 1 + packet[pos], jumps, more);
    }
  }

  // ----- writing names -----

  predicate Writable(labels: seq<Label>) {
    forall i :: 0 <= i < |labels| ==> 1 <= |labels[i]| <= MAX_LABEL_LEN
  }

  /** Length-prefixed labels, without an end. */
  function Stem(labels: seq<Label>): seq<Byte>
    requires Writable(labels)
  {
    if labels == [] then [] else [|labels[0]|] + labels[0] + Stem(labels[1..])
  }

  function Pointer(target: nat): seq<Byte>
    requires target < 0x4000
  {
    [0xC0 + target / 256, target % 256]
  }

  /** The packet holds exactly the bytes `written` at `pos`. */
  predicate Holds(packet: seq<Byte>, pos: nat, written: seq<Byte>) {
    pos + |written| <= |packet| && packet[pos..pos + |written|] == written
  }

  lemma HoldsParts(packet: seq<Byte>, pos: nat, first: seq<Byte>, second: seq<Byte>)
    requires Holds(packet, pos, first + second)
    ensures Holds(packet, pos, first) && Holds(packet, pos + |first|, second)
  {
    var all := first + second;
    assert packet[pos..pos + |first|] == packet[pos..pos + |all|][..|first|];
    assert packet[pos + |first|..pos + |all|] == packet[pos..pos + |all|][|first|..];
  }

  lemma PrependTwice(a: seq<Label>, b: seq<Label>, rest: Option<seq<Label>>)
    ensures Prepend(a, Prepend(b, rest)) == Prepend(a + b, rest)
    ensures Prepend([], rest) == rest
  {
    if rest.Some? {
      assert a + (b + rest.value) == (a + b) + rest.value;
      assert [] + rest.value == rest.value;
    }
  }

  lemma PointerRead(packet: seq<Byte>, pos: nat, jumps: nat)
    requires pos < |packet| && IsPointer(packet[pos])
    ensures Extent(packet, pos) == 2
    ensures Labels(packet, pos, jumps) ==
            if pos + 1 >= |packet| || Target(packet, pos) >= |packet| || jumps == 0 then None
            else Labels(packet, Target(packet, pos), jumps - 1)
  {
  }

  lemma EndRead(packet: seq<Byte>, pos: nat, done: seq<Label>, jumps: nat)
    requires pos < |packet| && packet[pos] == 0
    ensures Prepend(done, Labels(packet, pos, jumps)) == Some(done) && Extent(packet, pos) == 1
  {
    assert done + [] == done;
  }

  lemma LabelRead(packet: seq<Byte>, pos: nat, jumps: nat)
    requires pos < |packet| && !IsPointer(packet[pos]) && packet[pos] != 0
    ensures Extent(packet, pos) == 1 + packet[pos] + Extent(packet, pos + 1 + packet[pos])
    ensures Labels(packet, pos, jumps) ==
            if packet[pos] > MAX_LABEL_LEN || pos + 1 + packet[pos] > |packet| then None
            else Prepend([packet[pos + 1..pos + 1 + packet[pos]]], Labels(packet, pos + 1 + packet[pos], jumps))
  {
  }

  lemma WrittenLabel(packet: seq<Byte>, pos: nat, l: Label)
    requires 1 <= |l| <= MAX_LABEL_LEN && Holds(packet, pos, [|l|] + l)
    ensures pos + 1 + |l| <= |packet| && packet[pos] == |l| && packet[pos + 1..pos + 1 + |l|] == l
  {
    HoldsParts(packet, pos, [|l|], l);
    assert packet[pos] == packet[pos..pos + 1][0];
  }

  lemma WrittenByte(packet: seq<Byte>, pos: nat, written: seq<Byte>, i: nat)
    requires Holds(packet, pos, written) && i < |written|
    ensures pos + i < |packet| && packet[pos + i] == written[i]
  {
    assert packet[pos..pos + |written|][i] == packet[pos + i];
  }

  /** Labels written out are read back, followed by whatever name comes next. */
  lemma {:induction false} StemRead(packet: seq<Byte>, pos: nat, labels: seq<Label>, jumps: nat)
    requires Writable(labels) && Holds(packet, pos, Stem(labels))
    ensures Labels(packet, pos, jumps) == Prepend(labels, Labels(packet, pos + |Stem(labels)|, jumps))
    ensures Extent(packet, pos) == |Stem(labels)| + Extent(packet, pos + |Stem(labels)|)
    decreases |labels|
  {
    hide Holds, Labels, Extent, Prepend;
    var rest := Labels(packet, pos + |Stem(labels)|, jumps);
    if labels == [] {
      PrependTwice([], [], rest);
    } else {
      var l := labels[0];
      HoldsParts(packet, pos, [|l|] + l, Stem(labels[1..]));
      WrittenLabel(packet, pos, l);
      LabelRead(packet, pos, jumps);
      StemRead(packet, pos + 1 + |l|, labels[1..], jumps);
      PrependTwice([l], labels[1..], rest);
      assert labels == [l] + labels[1..];
    }
  }

  /**
   Compression is transparent: labels followed by a pointer to a name read as the labels followed by that
   name, while pointers are left to follow.
   */
  lemma CompressedName(packet: seq<Byte>, pos: nat, labels: seq<Label>, target: nat, jumps: nat)
    requires Writable(labels) && target < 0x4000 && target < |packet|
    requires Holds(packet, pos, Stem(labels) + Pointer(target))
    ensures Labels(packet, pos, jumps + 1) == Prepend(labels, Labels(packet, target, jumps))
    ensures Labels(packet, pos, 0).None?
    ensures Extent(packet, pos) == |Stem(labels)| + 2
  {
    hide Labels, Extent, Stem, Prepend, Holds;
    HoldsParts(packet, pos, Stem(labels), Pointer(target));
    StemRead(packet, pos, labels, jumps + 1);
    StemRead(packet, pos, labels, 0);
    var end := pos + |Stem(labels)|;
    WrittenByte(packet, end, Pointer(target), 0);
    WrittenByte(packet, end, Pointer(target), 1);
    PointerRead(packet, end, jumps + 1);
    PointerRead(packet, end, 0);
    NoneStays(labels);
  }

  lemma NoneStays(labels: seq<Label>)
    ensures Prepend(labels, None) == None
  {
  }

  /** The text of a written name, wherever in a packet it stands and whatever surrounds it. */
  lemma WrittenName(packet: seq<Byte>, pos: nat, labels: seq<Label>)
    requires Writable(labels) && Holds(packet, pos, Stem(labels) + [0])
    ensures Labels(packet, pos, MAX_JUMPS) == Some(labels)
    ensures Extent(packet, pos) == |Stem(labels)| + 1
  {
    hide Labels, Extent, Stem, Prepend, Holds;
    HoldsParts(packet, pos, Stem(labels), [0]);
    StemRead(packet, pos, labels, MAX_JUMPS);
    var end := pos + |Stem(labels)|;
    WrittenByte(packet, end, [0], 0);
    EndRead(packet, end, labels, MAX_JUMPS);
  }

  // ----- reading the text back into labels -----

  /** Bytes from 0x20 to 0x7e, and no dot. */
  predicate Plain(l: Label) { l != [] && forall i :: 0 <= i < |l| ==> 0x20 <= l[i] <= 0x7E && l[i] != 46 }

  function LastDot(text: seq<Byte>, from: nat): nat
    requires from <= |text|
    ensures LastDot(text, from) <= from
  {
    if from == 0 || text[from - 1] == DOT then from else LastDot(text, from - 1)
  }

  /** The labels of a dotted text. */
  function Undotted(text: seq<Byte>): seq<Label>
    decreases |text|
  {
    var cut := LastDot(text, |text|);
    if text == [] then []
    else if cut == 0 then [text]
    else Undotted(text[..cut - 1]) + [text[cut..]]
  }

  lemma {:induction false} LastDotAt(text: seq<Byte>, cut: nat, from: nat)
    requires cut <= from <= |text|
    requires cut == 0 || text[cut - 1] == DOT
    requires forall i :: cut <= i < from ==> text[i] != DOT
    ensures LastDot(text, from) == cut
  {
    if cut < from { LastDotAt(text, cut, from - 1); }
  }

  lemma PlainCleaned(l: Label)
    requires Plain(l)
    ensures Cleaned(l) == l
  {
  }

  lemma UndottedStep(front: seq<Byte>, l: Label)
    requires Plain(l)
    ensures Undotted(front + [DOT] + l) == Undotted(front) + [l]
    ensures Undotted(l) == [l]
  {
    var text := front + [DOT] + l;
    LastDotAt(text, |front| + 1, |text|);
    assert text[|front| + 1..] == l && text[..|front|] == front;
    LastDotAt(l, 0, |l|);
  }

  /** Printable labels without dots are recovered from their dotted text. */
  lemma {:induction false} UndottedDotted(labels: seq<Label>)
    requires forall i :: 0 <= i < |labels| ==> Plain(labels[i])
    ensures Undotted(Dotted(labels)) == labels
  {
    hide Undotted, Cleaned, Plain;
    if labels == [] {
      NoLabels();
    } else {
      var last := |labels| - 1;
      var front, l := labels[..last], labels[last];
      UndottedDotted(front);
      PlainCleaned(l);
      UndottedStep(Dotted(front), l);
      assert labels == front + [l];
      assert last == 0 ==> [] + [] + l == l;
    }
  }

  lemma NoLabels()
    ensures Undotted([]) == []
  {
  }

  /**
   Decoding undoes encoding: a written name of printable dot-free labels whose dotted text has at most 254
   bytes comes back label for label, and exactly its own bytes are consumed; a longer one is refused.
   */
  lemma NameRoundTrip(packet: seq<Byte>, pos: nat, labels: seq<Label>)
    requires Writable(labels) && Holds(packet, pos, Stem(labels) + [0])
    requires forall i :: 0 <= i < |labels| ==> Plain(labels[i])
    ensures NameAt(packet, pos).Some? <==> |Dotted(labels)| <= 254
    ensures NameAt(packet, pos).Some? ==>
              && Undotted(NameAt(packet, pos).value.text) == labels
              && NameAt(packet, pos).value.consumed == |Stem(labels) + [0]|
  {
    WrittenName(packet, pos, labels);
    UndottedDotted(labels);
  }

  // ----- the parser -----

  /** One label's bytes, appended with the unprintable ones replaced. */
  method CopyLabel(packet: seq<Byte>, from: nat, len: nat, out: seq<Byte>) returns (longer: seq<Byte>)
    requires from + len <= |packet|
    ensures longer == out + Cleaned(packet[from..from + len])
  {
    longer := out;
    var p := from;
    for i := 0 to len
      invariant p == from + i
      invariant longer == out + Cleaned(packet[from..from + i])
    {
      assert Cleaned(packet[from..from + i + 1]) == Cleaned(packet[from..from + i]) + [Shown(packet[p])];
      if !IsPrint(packet[p]) && packet[p] != HYPHEN && packet[p] != UNDERSCORE {
        longer := longer + [QUESTION_MARK];
      } else {
        longer := longer + [packet[p]];
      }
      p := p + 1;
    }
  }

  /** The text `out` with one more label. */
  function Joined(out: seq<Byte>, l: Label): seq<Byte> {
    (if out == [] then [] else out + [DOT]) + Cleaned(l)
  }

  lemma DottedStep(done: seq<Label>, l: Label)
    requires done != [] <==> Dotted(done) != []
    requires l != []
    ensures Dotted(done + [l]) == Joined(Dotted(done), l)
    ensures Dotted(done + [l]) != []
  {
    assert (done + [l])[..|done|] == done;
    assert Dotted(done + [l]) == Dotted(done) + (if done == [] then [] else [DOT]) + Cleaned(l);
  }

  lemma TooLong(packet: seq<Byte>, start: nat, done: seq<Label>, rest: Option<seq<Label>>)
    requires Labels(packet, start, MAX_JUMPS) == Prepend(done, rest)
    requires |Dotted(done)| >= MAX_NAME_LEN
    ensures NameAt(packet, start) == None
  {
    if rest.Some? { DottedGrows(done, rest.value); }
  }

  /**
   What the scan knows at `p`: the labels read so far, followed by the name at `p`, are the whole name, and
   the bytes it takes are counted up to the first pointer.
   */
  ghost predicate Scanning(packet: seq<Byte>, start: nat, p: nat, jumps: nat, jumped: bool, consumed: nat,
                           done: seq<Label>)
  {
    && jumps <= MAX_JUMPS
    && Labels(packet, start, MAX_JUMPS) == Prepend(done, Labels(packet, p, MAX_JUMPS - jumps))
    && (done != [] <==> Dotted(done) != [])
    && if jumped then consumed == Extent(packet, start)
       else start <= p && Extent(packet, start) == p - start + Extent(packet, p)
  }

  lemma ScanStarts(packet: seq<Byte>, start: nat)
    ensures Scanning(packet, start, start, 0, false, 0, [])
    ensures Dotted([]) == []
  {
    PrependTwice([], [], Labels(packet, start, MAX_JUMPS));
  }

  /** A pointer either ends the scan or moves it. */
  lemma ScanPointer(packet: seq<Byte>, start: nat, p: nat, jumps: nat, jumped: bool, consumed: nat, done: seq<Label>)
    requires Scanning(packet, start, p, jumps, jumped, consumed, done)
    requires p < |packet| && IsPointer(packet[p])
    ensures if p + 1 >= |packet| || Target(packet, p) >= |packet| || jumps == MAX_JUMPS
            then NameAt(packet, start) == None
            else Scanning(packet, start, Target(packet, p), jumps + 1, true,
                          if jumped then consumed else p - start + 2, done)
  {
    hide Labels, Extent, Dotted, IsPointer, Target;
    PointerRead(packet, p, MAX_JUMPS - jumps);
  }

  lemma ScanEnd(packet: seq<Byte>, start: nat, p: nat, jumps: nat, jumped: bool, consumed: nat, done: seq<Label>)
    requires Scanning(packet, start, p, jumps, jumped, consumed, done)
    requires p < |packet| && packet[p] == 0 && |Dotted(done)| < MAX_NAME_LEN
    ensures NameAt(packet, start) == Some(Name(Dotted(done), if jumped then consumed else p - start + 1))
  {
    hide Labels, Extent, Dotted, Prepend;
    EndRead(packet, p, done, MAX_JUMPS - jumps);
  }

  /** A label either ends the scan or is read. */
  lemma ScanLabel(packet: seq<Byte>, start: nat, p: nat, jumps: nat, jumped: bool, consumed: nat, done: seq<Label>)
    requires Scanning(packet, start, p, jumps, jumped, consumed, done)
    requires p < |packet| && !IsPointer(packet[p]) && packet[p] != 0
    ensures var next := p + 1 + packet[p];
            if packet[p] > MAX_LABEL_LEN || next > |packet| then NameAt(packet, start) == None
            else
              var longer := done + [packet[p + 1..next]];
              && Scanning(packet, start, next, jumps, jumped, consumed, longer)
              && Dotted(longer) == Joined(Dotted(done), packet[p + 1..next])
              && (|Dotted(longer)| >= MAX_NAME_LEN ==> NameAt(packet, start) == None)
  {
    hide Labels, Extent, Dotted, IsPointer, Prepend;
    LabelRead(packet, p, MAX_JUMPS - jumps);
    NoneStays(done);
    var next := p + 1 + packet[p];
    if packet[p] <= MAX_LABEL_LEN && next <= |packet| {
      var l := packet[p + 1..next];
      var rest := Labels(packet, next, MAX_JUMPS - jumps);
      PrependTwice(done, [l], rest);
      DottedStep(done, l);
      if |Dotted(done + [l])| >= MAX_NAME_LEN { TooLong(packet, start, done + [l], rest); }
    }
  }

  lemma ScanRunsOut(packet: seq<Byte>, start: nat, p: nat, jumps: nat, jumped: bool, consumed: nat, done: seq<Label>)
    requires Scanning(packet, start, p, jumps, jumped, consumed, done) && p >= |packet|
    ensures NameAt(packet, start) == None
  {
    assert Labels(packet, p, MAX_JUMPS - jumps) == None;
  }

  /** `used` is one more than the highest position written in the text buffer. */
  method ParseName(packet: seq<Byte>, start: nat) returns (name: Option<Name>, used: nat)
    ensures name == NameAt(packet, start)
    ensures used == Stored([], Legible(packet, start, MAX_JUMPS)) + if name.Some? then 1 else 0
    ensures used <= MAX_NAME_LEN + MAX_LABEL_LEN
    ensures used <= BUFFER_SIZE <==> FitsBuffer(Legible(packet, start, MAX_JUMPS))
  {
    name, used := ScanName(packet, start);
    var labels := Legible(packet, start, MAX_JUMPS);
    StoredExact(labels);
    NothingDotted();
    StoredBound([], labels);
    if name.Some? {
      ReturnedFits(packet, start);
      LegibleLabels(packet, start, MAX_JUMPS);
      assert [] + labels == labels;
      StoredShort([], labels);
    }
  }

  /** A short text is stored whole. */
  lemma {:induction false} StoredShort(done: seq<Label>, rest: seq<Label>)
    requires |Dotted(done + rest)| < MAX_NAME_LEN
    ensures Stored(done, rest) == |Dotted(done + rest)|
    decreases |rest|
  {
    DottedGrows(done, rest);
    if rest == [] {
      assert done + rest == done;
    } else {
      assert done + [rest[0]] + rest[1..] == done + rest;
      StoredShort(done + [rest[0]], rest[1..]);
    }
  }

  lemma LegiblePointer(packet: seq<Byte>, p: nat, jumps: nat, done: seq<Label>)
    requires p < |packet| && IsPointer(packet[p])
    ensures if p + 1 >= |packet| || Target(packet, p) >= |packet| || jumps == 0
            then Stored(done, Legible(packet, p, jumps)) == |Dotted(done)|
            else Legible(packet, p, jumps) == Legible(packet, Target(packet, p), jumps - 1)
  {
  }

  lemma LegibleEnd(packet: seq<Byte>, p: nat, jumps: nat, done: seq<Label>)
    requires p >= |packet| || packet[p] == 0
    ensures Stored(done, Legible(packet, p, jumps)) == |Dotted(done)|
  {
  }

  lemma LegibleLabel(packet: seq<Byte>, p: nat, jumps: nat, done: seq<Label>)
    requires p < |packet| && !IsPointer(packet[p]) && packet[p] != 0 && |Dotted(done)| < MAX_NAME_LEN
    ensures var next := p + 1 + packet[p];
            if packet[p] > MAX_LABEL_LEN || next > |packet|
            then Stored(done, Legible(packet, p, jumps)) == |Dotted(done)|
            else
              var longer := done + [packet[p + 1..next]];
              && Stored(done, Legible(packet, p, jumps)) == Stored(longer, Legible(packet, next, jumps))
              && (|Dotted(longer)| >= MAX_NAME_LEN ==> Stored(longer, Legible(packet, next, jumps)) == |Dotted(longer)|)
  {
    hide Dotted;
    if packet[p] <= MAX_LABEL_LEN && p + 1 + packet[p] <= |packet| {
      var next := p + 1 + packet[p];
      var l, rest := packet[p + 1..next], Legible(packet, next, jumps);
      assert Legible(packet, p, jumps) == [l] + rest;
      assert ([l] + rest)[0] == l && ([l] + rest)[1..] == rest;
    }
  }

  method ScanName(packet: seq<Byte>, start: nat) returns (name: Option<Name>, used: nat)
    ensures name == NameAt(packet, start)
    ensures used == Stored([], Legible(packet, start, MAX_JUMPS)) + if name.Some? then 1 else 0
  {
    hide Scanning, NameAt, Dotted, Stored, Legible;
    var p: nat, out: seq<Byte>, consumed: nat, jumps: nat, jumped := start, [], 0, 0, false;
    used := 0;
    ghost var done: seq<Label> := [];
    ghost var all := Legible(packet, start, MAX_JUMPS);
    ScanStarts(packet, start);
    while p < |packet|
      invariant jumps <= MAX_JUMPS && (!jumped ==> start <= p)
      invariant Scanning(packet, start, p, jumps, jumped, consumed, done)
      invariant out == Dotted(done) && |out| < MAX_NAME_LEN && used == |out|
      invariant Stored([], all) == Stored(done, Legible(packet, p, MAX_JUMPS - jumps))
      decreases MAX_JUMPS - jumps, |packet| - p
    {
      var len := packet[p];
      if IsPointer(len) {
        ScanPointer(packet, start, p, jumps, jumped, consumed, done);
        LegiblePointer(packet, p, MAX_JUMPS - jumps, done);
        if p + 1 >= |packet| {
          return None, used;
        }
        var offset := (len as int) % 64 * 256 + packet[p + 1];
        if offset >= |packet| {
          return None, used;
        }
        if !jumped {
          consumed := p - start + 2;
          jumped := true;
        }
        p := offset;
        jumps := jumps + 1;
        if jumps > MAX_JUMPS {
          return None, used;
        }
        continue;
      }
      if len == 0 {
        ScanEnd(packet, start, p, jumps, jumped, consumed, done);
        LegibleEnd(packet, p, MAX_JUMPS - jumps, done);
        if !jumped {
          consumed := p - start + 1;
        }
        return Some(Name(out, consumed)), |out| + 1;
      }
      ScanLabel(packet, start, p, jumps, jumped, consumed, done);
      LegibleLabel(packet, p, MAX_JUMPS - jumps, done);
      if len > MAX_LABEL_LEN {
        return None, used;
      }
      if p + 1 + len > |packet| {
        return None, used;
      }
      done := done + [packet[p + 1..p + 1 + len]];
      if out != [] {
        out := out + [DOT];
        used := |out|;
      }
      out := CopyLabel(packet, p + 1, len, out);
      used := |out|;
      p := p + 1 + len;
      if |out| > MAX_NAME_LEN - 1 {
        return None, used;
      }
    }
    ScanRunsOut(packet, start, p, jumps, jumped, consumed, done);
    LegibleEnd(packet, p, MAX_JUMPS - jumps, done);
    return None, used;
  }

  // ----- questions -----

  function Word(packet: seq<Byte>, pos: nat): nat
    requires pos + 2 <= |packet|
  {
    (packet[pos] as int) * 256 + packet[pos + 1]
  }

  function WordBytes(w: nat): seq<Byte>
    requires w < 0x1_0000
  {
    [w / 256, w % 256]
  }

  function QuestionAt(packet: seq<Byte>, start: nat): Option<Question> {
    var name := NameAt(packet, start);
    if name.None? || start + name.value.consumed + 4 > |packet| then None
    else
      var tail := start + name.value.consumed;
      Some(Question(name.value.text, Word(packet, tail), Word(packet, tail + 2), name.value.consumed + 4))
  }

  /** The question at `start`, unless there is no memory for it. */
  method ParseQuestion(packet: seq<Byte>, start: nat, enoughMemory: bool) returns (q: Option<Question>, used: nat)
    ensures q == if enoughMemory then QuestionAt(packet, start) else None
    ensures q.Some? ==> 5 <= q.value.consumed <= |packet| - start
    ensures used <= BUFFER_SIZE <==> FitsBuffer(Legible(packet, start, MAX_JUMPS))
  {
    hide NameAt, Legible, FitsBuffer;
    var name;
    name, used := ParseName(packet, start);
    if name.None? {
      return None, used;
    }
    NameInside(packet, start);
    var p := start + name.value.consumed;
    if p + 4 > |packet| {
      return None, used;
    }
    var qtype := Word(packet, p);
    p := p + 2;
    var qclass := Word(packet, p);
    if !enoughMemory {
      return None, used;
    }
    return Some(Question(name.value.text, qtype, qclass, name.value.consumed + 4)), used;
  }

  /** A written question comes back with its labels, type and class, and is consumed whole. */
  lemma QuestionRoundTrip(packet: seq<Byte>, pos: nat, labels: seq<Label>, qtype: nat, qclass: nat)
    requires Writable(labels) && qtype < 0x1_0000 && qclass < 0x1_0000
    requires Holds(packet, pos, (Stem(labels) + [0]) + (WordBytes(qtype) + WordBytes(qclass)))
    requires forall i :: 0 <= i < |labels| ==> Plain(labels[i])
    requires |Dotted(labels)| <= 254
    ensures var q := QuestionAt(packet, pos);
            q.Some? && Undotted(q.value.qname) == labels && q.value.qtype == qtype && q.value.qclass == qclass
            && q.value.consumed == |Stem(labels)| + 5
  {
    hide Holds, Stem, Dotted, Undotted, NameAt, Word, Plain, Writable;
    var name := Stem(labels) + [0];
    HoldsParts(packet, pos, name, WordBytes(qtype) + WordBytes(qclass));
    HoldsParts(packet, pos + |name|, WordBytes(qtype), WordBytes(qclass));
    NameRoundTrip(packet, pos, labels);
    var tail := pos + |name|;
    WrittenWord(packet, tail, qtype);
    WrittenWord(packet, tail + 2, qclass);
    hide *;
    QuestionParts(packet, pos);
  }

  lemma QuestionParts(packet: seq<Byte>, start: nat)
    requires NameAt(packet, start).Some? && start + NameAt(packet, start).value.consumed + 4 <= |packet|
    ensures var name := NameAt(packet, start).value;
            var tail := start + name.consumed;
            var q := Question(name.text, Word(packet, tail), Word(packet, tail + 2), name.consumed + 4);
            QuestionAt(packet, start) == Some(q)
  {
  }

  lemma WrittenWord(packet: seq<Byte>, pos: nat, w: nat)
    requires w < 0x1_0000 && Holds(packet, pos, WordBytes(w))
    ensures pos + 2 <= |packet| && Word(packet, pos) == w
  {
    WrittenByte(packet, pos, WordBytes(w), 0);
    WrittenByte(packet, pos, WordBytes(w), 1);
    hide Holds;
  }
}
