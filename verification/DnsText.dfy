/**
 What a decoded name shows, byte by byte: which bytes of its labels stand where in the text, which length bytes are
 refused, and how many pointers are followed.
 */
module DnsText {
  import opened DnsNames
  import opened Options

  /** Where label `i` starts in the dotted text: after the labels before it, and a dot after each of them. */
  function TextPos(labels: seq<Label>, i: nat): nat
    requires i <= |labels|
  {
    if i == 0 then 0 else TextPos(labels, i - 1) + |labels[i - 1]| + 1
  }

  lemma {:induction false} TextPosPrefix(labels: seq<Label>, n: nat, i: nat)
    requires i <= n <= |labels|
    ensures TextPos(labels[..n], i) == TextPos(labels, i)
  {
    if i > 0 { TextPosPrefix(labels, n, i - 1); }
  }

  /** A byte is shown as itself from 0x20 to 0x7e, and as a question mark elsewhere. */
  predicate ShownAs(b: Byte, c: Byte) { c == if b < 0x20 || 0x7E < b then 63 else b }

  lemma {:induction false} DottedLength(labels: seq<Label>)
    requires labels != []
    ensures |Dotted(labels)| + 1 == TextPos(labels, |labels|)
  {
    var last := |labels| - 1;
    if last > 0 {
      DottedLength(labels[..last]);
      TextPosPrefix(labels, last, last);
    } else {
      assert Dotted(labels[..0]) == [];
    }
  }

  /** Byte j of label i stands at its place in the text, and a dot before every label but the first. */
  lemma {:induction false} DottedShows(labels: seq<Label>, i: nat, j: nat)
    requires i < |labels| && j < |labels[i]|
    ensures TextPos(labels, i) + j < |Dotted(labels)|
    ensures ShownAs(labels[i][j], Dotted(labels)[TextPos(labels, i) + j])
    ensures i > 0 ==> Dotted(labels)[TextPos(labels, i) - 1] == 46
  {
    var last := |labels| - 1;
    var front := labels[..last];
    TextPosPrefix(labels, last, if i < last then i else last);
    if last > 0 { DottedLength(front); } else { assert Dotted(front) == []; }
    if i < last {
      DottedShows(front, i, j);
    } else {
      assert Cleaned(labels[last])[j] == Shown(labels[last][j]);
    }
  }

  lemma NameText(packet: seq<Byte>, start: nat)
    requires NameAt(packet, start).Some? && Labels(packet, start, 10).Some?
    ensures NameAt(packet, start).value.text == Dotted(Labels(packet, start, 10).value)
    ensures |NameAt(packet, start).value.text| <= 254
  {
    hide Labels, Dotted;
  }

  /**
   In every name that is returned: its length, and at its place each label byte, as itself from 0x20 to 0x7e and
   as a question mark elsewhere.
   */
  lemma NameShows(packet: seq<Byte>, start: nat, i: nat, j: nat)
    requires NameAt(packet, start).Some? && Labels(packet, start, 10).Some?
    requires i < |Labels(packet, start, 10).value| && j < |Labels(packet, start, 10).value[i]|
    ensures var labels, text := Labels(packet, start, 10).value, NameAt(packet, start).value.text;
            && |text| + 1 == TextPos(labels, |labels|) <= 255 && TextPos(labels, i) + j < |text|
            && ShownAs(labels[i][j], text[TextPos(labels, i) + j])
            && (i > 0 ==> text[TextPos(labels, i) - 1] == 46)
  {
    hide *;
    var labels := Labels(packet, start, 10).value;
    NameText(packet, start);
    DottedLength(labels);
    DottedShows(labels, i, j);
  }

  /** A name is found exactly if its labels can be read with at most ten pointers and their text is short enough. */
  lemma NameFound(packet: seq<Byte>, start: nat)
    ensures NameAt(packet, start).Some? <==>
            Labels(packet, start, 10).Some? && TextPos(Labels(packet, start, 10).value,
                                                       |Labels(packet, start, 10).value|) <= 255
  {
    hide Labels;
    if Labels(packet, start, 10).Some? && Labels(packet, start, 10).value != [] {
      DottedLength(Labels(packet, start, 10).value);
    }
  }

  /** A length byte from 64 to 191 is neither a label's nor a pointer's: the name is refused. */
  lemma ReservedLength(packet: seq<Byte>, pos: nat, jumps: nat)
    requires pos < |packet| && 64 <= packet[pos] <= 191
    ensures Labels(packet, pos, jumps) == None && NameAt(packet, pos) == None
  {
  }

  /** A pointer to `q` is written at `p`. */
  predicate PointsTo(packet: seq<Byte>, p: nat, q: nat) {
    && p + 1 < |packet| && q < |packet| && q < 0x4000
    && packet[p] == 192 + q / 256 && packet[p + 1] == q % 256
  }

  /** A row of pointers: each position but the last holds a pointer to the next. */
  predicate Row(packet: seq<Byte>, at: seq<nat>) {
    at != [] && forall i :: 0 <= i < |at| - 1 ==> PointsTo(packet, at[i], at[i + 1])
  }

  /** Pointers are followed to the end of the row while there are no more of them than allowed. */
  lemma {:induction false} RowFollowed(packet: seq<Byte>, at: seq<nat>, jumps: nat)
    requires Row(packet, at)
    ensures Labels(packet, at[0], jumps)
         == if |at| - 1 <= jumps then Labels(packet, at[|at| - 1], jumps - (|at| - 1)) else None
    decreases |at|
  {
    if |at| > 1 {
      var rest := at[1..];
      forall i | 0 <= i < |rest| - 1 ensures PointsTo(packet, rest[i], rest[i + 1]) {
        assert PointsTo(packet, at[i + 1], at[i + 1 + 1]);
      }
      assert PointsTo(packet, at[0], at[1]);
      assert Target(packet, at[0]) == at[1];
      if jumps > 0 { RowFollowed(packet, rest, jumps - 1); }
    }
  }

  /** A written name behind a row of pointers is found if and only if there are at most ten of them. */
  lemma TenPointers(packet: seq<Byte>, at: seq<nat>, labels: seq<Label>)
    requires Row(packet, at) && Writable(labels) && Holds(packet, at[|at| - 1], Stem(labels) + [0])
    requires |Dotted(labels)| <= 254
    ensures NameAt(packet, at[0]).Some? <==> |at| <= 11
    ensures |at| <= 11 ==> NameAt(packet, at[0]).value.text == Dotted(labels)
  {
    assert at != [];
    hide Labels, Dotted, Stem, Holds, Row, PointsTo, Extent, Writable;
    RowFollowed(packet, at, 10);
    if |at| <= 11 { WrittenAnyJumps(packet, at[|at| - 1], labels, 11 - |at|); }
  }

  lemma WrittenAnyJumps(packet: seq<Byte>, pos: nat, labels: seq<Label>, jumps: nat)
    requires Writable(labels) && Holds(packet, pos, Stem(labels) + [0])
    ensures Labels(packet, pos, jumps) == Some(labels)
  {
    hide Labels, Extent, Stem, Prepend, Holds;
    HoldsParts(packet, pos, Stem(labels), [0]);
    StemRead(packet, pos, labels, jumps);
    var end := pos + |Stem(labels)|;
    WrittenByte(packet, end, [0], 0);
    EndRead(packet, end, labels, jumps);
  }
}
