/** PKCS#7 padding to the 16-byte block (section 10.3 of RFC 2315), as
    pkcs7_pad and pkcs7_unpad do it: padding always adds one to sixteen
    bytes, and removing it is lenient, handing back the whole buffer when
    the trailer is not valid padding. */
module Padding {
  import opened Bytes

  /** The number of padding bytes pkcs7_pad appends to `len` bytes. */
  function PadLength(len: nat): (p: nat)
    ensures 1 <= p <= BLOCK_SIZE && (len + p) % BLOCK_SIZE == 0
  {
    BLOCK_SIZE - len % BLOCK_SIZE
  }

  /** The padding length is the only one of 1..16 that completes a block:
      a full block of padding is added to an already aligned input. */
  lemma PadLengthUnique(len: nat, p: nat)
    requires 1 <= p <= BLOCK_SIZE && (len + p) % BLOCK_SIZE == 0
    ensures p == PadLength(len)
  {
  }

  /** pkcs7_pad: the input followed by PadLength copies of the byte
      PadLength. */
  function Pad(inp: seq<byte>): (out: seq<byte>)
    ensures |out| % BLOCK_SIZE == 0
    ensures |inp| < |out| <= |inp| + BLOCK_SIZE
    ensures out[..|inp|] == inp
    ensures forall k :: |inp| <= k < |out| ==> out[k] as nat == |out| - |inp|
  {
    var p := PadLength(|inp|);
    inp + seq(p, _ => p as byte)
  }

  /** The trailer a well-formed padded buffer ends in: its last byte p is
      in 1..16, fits in the buffer, and the last p bytes all equal p. */
  ghost predicate ValidPadding(buf: seq<byte>) {
    |buf| >= 1 &&
    var p := buf[|buf| - 1] as nat;
    1 <= p <= BLOCK_SIZE && p <= |buf| &&
    forall k :: |buf| - p <= k < |buf| ==> buf[k] as nat == p
  }

  /** The check loop of pkcs7_unpad from its i-th iteration on: bytes
      buf[len-1-i] .. buf[len-pad] all equal pad. */
  function TrailerMatches(buf: seq<byte>, pad: nat, i: nat): bool
    requires pad <= |buf| && i <= pad
    decreases pad - i
  {
    i == pad || (buf[|buf| - 1 - i] as nat == pad && TrailerMatches(buf, pad, i + 1))
  }

  /** The loop accepts exactly when every byte it visits equals pad. */
  lemma {:induction false} TrailerMatchesAll(buf: seq<byte>, pad: nat, i: nat)
    requires pad <= |buf| && i <= pad
    ensures TrailerMatches(buf, pad, i) <==>
      forall k :: |buf| - pad <= k < |buf| - i ==> buf[k] as nat == pad
    decreases pad - i
  {
    if i < pad {
      TrailerMatchesAll(buf, pad, i + 1);
    }
  }

  /** pkcs7_unpad: the length of the data in front of valid padding, or
      the whole length when the padding is not valid. A pad byte larger
      than the buffer counts as invalid. */
  function Unpad(buf: seq<byte>): (n: nat)
    requires |buf| >= 1
    ensures n < |buf| <==> ValidPadding(buf)
    ensures ValidPadding(buf) ==> n == |buf| - buf[|buf| - 1] as nat
    ensures !ValidPadding(buf) ==> n == |buf|
  {
    var pad := buf[|buf| - 1] as nat;
    if pad < 1 || pad > BLOCK_SIZE || pad > |buf| then |buf|
    else
      TrailerMatchesAll(buf, pad, 0);
      if TrailerMatches(buf, pad, 0) then |buf| - pad else |buf|
  }

  /** Unpadding a padded buffer recovers the original length, hence the
      original data in front of it. */
  lemma UnpadPad(inp: seq<byte>)
    ensures Unpad(Pad(inp)) == |inp|
    ensures Pad(inp)[..Unpad(Pad(inp))] == inp
  {
    var out := Pad(inp);
    assert out[|out| - 1] as nat == |out| - |inp|;
  }

  /** What a run of pkcs7_unpad as written comes to: the length it
      returns, or the first index it reads outside the buffer. */
  datatype UnpadOutcome = Length(n: int) | ReadsOutside(index: int)

  /** pkcs7_unpad exactly as written, with no bounds assumed: it reads
      buf[len-1] even when len is 0, and its check loop reads
      buf[len-1-i] for i up to pad-1 even when pad exceeds len. The first
      read outside the buffer is always buf[-1]; a returned length is
      never negative and never beyond the buffer. */
  function UnpadAsWritten(buf: seq<byte>): (r: UnpadOutcome)
    ensures r.ReadsOutside? ==> r.index == -1
    ensures r.Length? ==> 0 <= r.n <= |buf|
  {
    if |buf| == 0 then ReadsOutside(-1)
    else
      var pad := buf[|buf| - 1] as nat;
      if pad < 1 || pad > BLOCK_SIZE then Length(|buf|) else ScanAsWritten(buf, pad, 0)
  }

  /** The check loop of pkcs7_unpad as written, from iteration i on. */
  function ScanAsWritten(buf: seq<byte>, pad: nat, i: nat): (r: UnpadOutcome)
    requires i <= pad
    ensures i <= |buf| && r.ReadsOutside? ==> r.index == -1
    ensures r.Length? ==> r.n == |buf| || r.n == |buf| - pad
    ensures i < pad && r.Length? ==> r.n >= 0
    decreases pad - i
  {
    if i == pad then Length(|buf| - pad)
    else
      var index := |buf| - 1 - i;
      if index < 0 then ReadsOutside(index)
      else if buf[index] as nat != pad then Length(|buf|)
      else ScanAsWritten(buf, pad, i + 1)
  }

  /** A one-byte buffer holding 0x02 passes the range check on the pad
      byte, and the second iteration of the loop reads buf[-1]; so does
      the very first read on an empty buffer. */
  lemma UnpadReadsOutside()
    ensures UnpadAsWritten([0x02]) == ReadsOutside(-1)
    ensures UnpadAsWritten([]) == ReadsOutside(-1)
  {
    assert ScanAsWritten([0x02], 2, 0) == ScanAsWritten([0x02], 2, 1);
  }

  /** With the pad byte inside the buffer the loop as written stays in
      bounds and answers as TrailerMatches does. */
  lemma {:induction false} ScanInBounds(buf: seq<byte>, pad: nat, i: nat)
    requires pad <= |buf| && i <= pad
    ensures ScanAsWritten(buf, pad, i) ==
      if TrailerMatches(buf, pad, i) then Length(|buf| - pad) else Length(|buf|)
    decreases pad - i
  {
    if i < pad {
      ScanInBounds(buf, pad, i + 1);
    }
  }

  /** With the pad byte beyond the buffer the loop as written reads
      buf[-1] exactly when every byte it visits before that equals pad. */
  lemma {:induction false} ScanOutOfBounds(buf: seq<byte>, pad: nat, i: nat)
    requires |buf| < pad && i <= |buf|
    ensures ScanAsWritten(buf, pad, i) ==
      if forall k :: 0 <= k < |buf| - i ==> buf[k] as nat == pad then ReadsOutside(-1) else Length(|buf|)
    decreases |buf| - i
  {
    if i < |buf| {
      ScanOutOfBounds(buf, pad, i + 1);
    }
  }

  /** pkcs7_unpad as written goes out of bounds exactly on an empty buffer
      and on a buffer all of whose bytes equal a pad byte in 1..16 larger
      than the buffer; on every other buffer it returns what Unpad does. */
  lemma UnpadAsWrittenAgrees(buf: seq<byte>)
    ensures UnpadAsWritten(buf).ReadsOutside? <==>
      |buf| == 0 ||
      (var p := buf[|buf| - 1] as nat;
       |buf| < p <= BLOCK_SIZE && forall k :: 0 <= k < |buf| ==> buf[k] as nat == p)
    ensures UnpadAsWritten(buf).Length? ==> UnpadAsWritten(buf).n == Unpad(buf)
  {
    if |buf| > 0 {
      var pad := buf[|buf| - 1] as nat;
      if 1 <= pad <= BLOCK_SIZE {
        if pad <= |buf| {
          ScanInBounds(buf, pad, 0);
        } else {
          ScanOutOfBounds(buf, pad, 0);
        }
      }
    }
  }
}
