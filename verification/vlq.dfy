/** Variable-length quantities (the "Conventions" section of Standard MIDI
    Files 1.0): a number written as big-endian groups of seven bits, every
    byte but the last carrying the continuation flag in bit 7.

    The reader is the `readVarLen` helper of the decoder, the writer is
    `writeVarLen` of the encoder; `ReadWriteRoundTrip` ties them together. */
module Vlq {
  import opened Types

  /** The number spelled by a run of VLQ bytes: their low seven bits,
      concatenated most significant group first. */
  function Groups(s: seq<byte>): nat {
    if |s| == 0 then 0 else Groups(s[..|s| - 1]) * 128 + s[|s| - 1] % 128
  }

  /** The index of the byte that ends the quantity starting at `pos`: the
      first one, from `pos` on, whose bit 7 is clear. `None` when the buffer
      ends first. */
  function TerminatorFrom(bytes: seq<byte>, pos: nat): (r: Option<nat>)
    decreases |bytes| - pos
    ensures r.Some? ==> pos <= r.value < |bytes|
  {
    if pos >= |bytes| then None
    else if bytes[pos] < 0x80 then Some(pos)
    else TerminatorFrom(bytes, pos + 1)
  }

  /** The search finds the first byte with bit 7 clear, and fails only when
      every remaining byte has it set. */
  lemma {:induction false} TerminatorSpec(bytes: seq<byte>, pos: nat)
    decreases |bytes| - pos
    ensures var r := TerminatorFrom(bytes, pos);
      && (r.Some? ==> bytes[r.value] < 0x80)
      && (r.Some? ==> forall k :: pos <= k < r.value ==> bytes[k] >= 0x80)
      && (r.None? ==> forall k :: pos <= k < |bytes| ==> bytes[k] >= 0x80)
  {
    if pos < |bytes| && bytes[pos] >= 0x80 {
      TerminatorSpec(bytes, pos + 1);
    }
  }

  /** A quantity that was read, and the position just after it. */
  datatype VarLen = VarLen(value: nat, next: nat)

  /** `readVarLen`: consume bytes while bit 7 is set, then the one that ends
      the run. A run that reaches the end of the buffer reads nothing. */
  function ReadVarLen(bytes: seq<byte>, pos: nat): (r: Option<VarLen>)
    ensures r.Some? ==> pos < r.value.next <= |bytes|
  {
    match TerminatorFrom(bytes, pos)
    case None => None
    case Some(last) => Some(VarLen(Groups(bytes[pos..last + 1]), last + 1))
  }

  /** A quantity is read exactly when some byte from `pos` on has bit 7
      clear; it then spans the continuation bytes up to and including the
      first such byte, and its value is the number those bytes spell. */
  lemma ReadVarLenSpec(bytes: seq<byte>, pos: nat)
    ensures var r := ReadVarLen(bytes, pos);
      && (r.Some? <==> exists k :: pos <= k < |bytes| && bytes[k] < 0x80)
      && (r.Some? ==> bytes[r.value.next - 1] < 0x80)
      && (r.Some? ==> forall k :: pos <= k < r.value.next - 1 ==> bytes[k] >= 0x80)
      && (r.Some? ==> r.value.value == Groups(bytes[pos..r.value.next]))
  {
    TerminatorSpec(bytes, pos);
  }

  /** Splitting off the low seven bits, and how that shrinks the rest. */
  lemma SplitLow7(v: nat)
    ensures v == v / 128 * 128 + v % 128
    ensures (v % 128) % 128 == v % 128 && (v % 128 + 128) % 128 == v % 128
    ensures v < 0x80 ==> v / 128 == 0
    ensures v < 0x4000 ==> v / 128 < 0x80
    ensures v < 0x20_0000 ==> v / 128 < 0x4000
    ensures v < 0x1000_0000 ==> v / 128 < 0x20_0000
  {
  }

  /** Every byte carries the continuation flag. */
  predicate AllContinued(s: seq<byte>) {
    forall k :: 0 <= k < |s| ==> s[k] >= 0x80
  }

  /** The continuation bytes that precede the final byte of `v`'s encoding:
      the `while (value > 0)` loop of `writeVarLen`, which prepends. */
  function HighGroups(v: nat): (r: seq<byte>)
    ensures AllContinued(r)
    ensures Groups(r) == v
    ensures v < 0x80 ==> |r| <= 1
    ensures v < 0x4000 ==> |r| <= 2
    ensures v < 0x20_0000 ==> |r| <= 3
    ensures v == 0 <==> |r| == 0
  {
    if v == 0 then []
    else
      var high := HighGroups(v / 128);
      SplitLow7(v);
      AppendGroup(high, v % 128 + 128);
      high + [v % 128 + 128]
  }

  /** What appending one byte to a run of continuation bytes gives. */
  lemma AppendGroup(high: seq<byte>, b: byte)
    requires AllContinued(high)
    ensures Groups(high + [b]) == Groups(high) * 128 + b % 128
    ensures b >= 0x80 ==> AllContinued(high + [b])
    ensures AllContinued((high + [b])[..|high|])
    ensures (high + [b])[|high|] == b
  {
    assert (high + [b])[..|high|] == high;
  }

  /** `writeVarLen`: negative values are clamped to zero; the low seven bits
      are the final byte. The source shifts with `>>=`, a 32-bit operation,
      so values of 2^31 and above are outside its range. */
  function WriteVarLen(value: int): (r: seq<byte>)
    requires value < 0x8000_0000
    ensures 1 <= |r|
    ensures value <= 0 ==> r == [0]
    ensures value < 0x1000_0000 ==> |r| <= 4
  {
    if value < 0 then [0]
    else
      LowGroupLast(value);
      HighGroups(value / 128) + [value % 128]
  }

  /** The encoding is a run of continuation bytes closed by one byte with
      bit 7 clear, and for a non-negative value it spells the value. */
  lemma WriteVarLenSpec(value: int)
    requires value < 0x8000_0000
    ensures var r := WriteVarLen(value);
      && r[|r| - 1] < 0x80
      && AllContinued(r[..|r| - 1])
      && (value >= 0 ==> Groups(r) == value)
  {
    if value >= 0 {
      LowGroupLast(value);
    }
  }

  /** The shape of the encoding of `v`, proved apart from `WriteVarLen` so
      that its own check stays small. */
  lemma LowGroupLast(v: nat)
    ensures var r := HighGroups(v / 128) + [v % 128];
      && r[|r| - 1] < 0x80
      && AllContinued(r[..|r| - 1])
      && Groups(r) == v
      && (v == 0 ==> r == [0])
      && (v < 0x1000_0000 ==> |r| <= 4)
  {
    var high := HighGroups(v / 128);
    SplitLow7(v);
    AppendGroup(high, v % 128);
  }

  /** `readVarLen` is a left inverse of `writeVarLen`: reading where an
      encoding was written gives back the value and stops right after it. */
  lemma ReadWriteRoundTrip(bytes: seq<byte>, pos: nat, value: nat)
    requires value < 0x8000_0000
    requires pos + |WriteVarLen(value)| <= |bytes|
    requires bytes[pos..pos + |WriteVarLen(value)|] == WriteVarLen(value)
    ensures ReadVarLen(bytes, pos) == Some(VarLen(value, pos + |WriteVarLen(value)|))
  {
    var w := WriteVarLen(value);
    WriteVarLenSpec(value);
    var end := pos + |w| - 1;
    assert bytes[end] == w[|w| - 1];
    assert forall k :: pos <= k < end ==> bytes[k] == w[k - pos];
    TerminatorIsFirst(bytes, pos, end);
  }

  /** A byte with bit 7 clear is a whole quantity by itself. */
  lemma ReadSingleByte(bytes: seq<byte>, pos: nat)
    requires pos < |bytes| && bytes[pos] < 0x80
    ensures ReadVarLen(bytes, pos) == Some(VarLen(bytes[pos], pos + 1))
  {
    assert bytes[pos..pos + 1] == [bytes[pos]];
    assert Groups([bytes[pos]]) == Groups([]) * 128 + bytes[pos] % 128;
  }

  /** The terminator search stops at the first byte whose bit 7 is clear. */
  lemma {:induction false} TerminatorIsFirst(bytes: seq<byte>, pos: nat, end: nat)
    requires pos <= end < |bytes|
    requires bytes[end] < 0x80
    requires forall k :: pos <= k < end ==> bytes[k] >= 0x80
    ensures TerminatorFrom(bytes, pos) == Some(end)
    decreases end - pos
  {
    if pos < end {
      TerminatorIsFirst(bytes, pos + 1, end);
    }
  }
}
