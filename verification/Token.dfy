/** Token classes: the size buckets, and the zero padding that hides lengths inside a bucket. */
module Token {
  import opened Bytes

  datatype TokenClass = C256 | C512 | C1024 | C2048 | C4096

  /** A usage ticket, bound to one request by its commitment. */
  datatype Ticket = Ticket(commitmentRoot: seq<Byte>, nullifier: seq<Byte>, tokenClass: TokenClass, proof: seq<Byte>)

  function MaxPromptBytes(c: TokenClass): nat {
    match c
    case C256 => 2 * 1024
    case C512 => 4 * 1024
    case C1024 => 8 * 1024
    case C2048 => 16 * 1024
    case C4096 => 32 * 1024
  }

  function RequestPlaintextBytes(c: TokenClass): nat {
    match c
    case C256 => 8 * 1024
    case C512 => 12 * 1024
    case C1024 => 20 * 1024
    case C2048 => 36 * 1024
    case C4096 => 68 * 1024
  }

  function ResponsePlaintextBytes(c: TokenClass): nat {
    match c
    case C256 => 8 * 1024
    case C512 => 16 * 1024
    case C1024 => 32 * 1024
    case C2048 => 64 * 1024
    case C4096 => 128 * 1024
  }

  function ClassId(c: TokenClass): Byte {
    match c
    case C256 => 1
    case C512 => 2
    case C1024 => 3
    case C2048 => 4
    case C4096 => 5
  }

  function Zeros(n: nat): (z: seq<Byte>)
    ensures |z| == n
  {
    seq(n, i => 0)
  }

  function MaxCompletionTokens(c: TokenClass): nat {
    match c
    case C256 => 256
    case C512 => 512
    case C1024 => 1024
    case C2048 => 2048
    case C4096 => 4096
  }

  /** How the tables belong together: each class is twice the one before, a token is eight bytes of prompt,
      the sealed request has room for the prompt twice and 4096 bytes more, the sealed answer for 32 bytes a
      token. */
  lemma ClassTables(c: TokenClass)
    ensures var n := MaxCompletionTokens(c);
            && MaxPromptBytes(c) == 8 * n && RequestPlaintextBytes(c) == 2 * MaxPromptBytes(c) + 4096
            && ResponsePlaintextBytes(c) == 32 * n
            && n == match ClassId(c) case 1 => 256 case 2 => 2 * 256 case 3 => 4 * 256 case 4 => 8 * 256
                                     case _ => 16 * 256
    ensures 1 <= ClassId(c) <= 5
  {
  }

  /** Larger classes allow more of everything. */
  lemma ClassesAscend(c: TokenClass, d: TokenClass)
    requires ClassId(c) < ClassId(d)
    ensures MaxCompletionTokens(c) < MaxCompletionTokens(d) && MaxPromptBytes(c) < MaxPromptBytes(d)
    ensures RequestPlaintextBytes(c) < RequestPlaintextBytes(d) && ResponsePlaintextBytes(c) < ResponsePlaintextBytes(d)
  {
  }

  /** Zero padding up to a fixed length; nothing when the data is longer. */
  function Padded(data: seq<Byte>, targetLen: nat): Option<seq<Byte>> {
    if |data| > targetLen then None else Some(data + Zeros(targetLen - |data|))
  }

  /** Padding keeps the data, adds zeros only, and gives exactly the target length; it fails exactly on data
      that is too long. */
  lemma PaddedIs(data: seq<Byte>, targetLen: nat)
    ensures Padded(data, targetLen).None? <==> |data| > targetLen
    ensures Padded(data, targetLen).Some? ==>
              var p := Padded(data, targetLen).value;
              |p| == targetLen && data <= p && forall i :: |data| <= i < targetLen ==> p[i] == 0
  {
  }

  predicate EndsInZero(data: seq<Byte>) { data != [] && data[|data| - 1] == 0 }

  /** Drop trailing zeros, one at a time from the end. */
  method TrimZeroPadding(data: seq<Byte>) returns (out: seq<Byte>)
    ensures out <= data && !EndsInZero(out)
    ensures forall i :: |out| <= i < |data| ==> data[i] == 0
    ensures out == Trimmed(data)
  {
    var end := |data|;
    assert data[..end] == data;
    while end > 0 && data[end - 1] == 0
      invariant 0 <= end <= |data|
      invariant forall i :: end <= i < |data| ==> data[i] == 0
      invariant Trimmed(data[..end]) == Trimmed(data)
    {
      assert data[..end][..end - 1] == data[..end - 1];
      end := end - 1;
    }
    out := data[..end];
  }

  function Trimmed(data: seq<Byte>): seq<Byte>
    decreases |data|
  {
    if EndsInZero(data) then Trimmed(data[..|data| - 1]) else data
  }

  /** What is trimmed is exactly the zeros at the end. */
  lemma {:induction false} TrimmedZeros(data: seq<Byte>, n: nat)
    ensures Trimmed(data + Zeros(n)) == Trimmed(data)
  {
    if n == 0 {
      assert data + Zeros(0) == data;
    } else {
      assert (data + Zeros(n))[..|data| + n - 1] == data + Zeros(n - 1);
      TrimmedZeros(data, n - 1);
    }
  }

  /** Trimming undoes padding exactly for the payloads that do not end in a zero byte. */
  lemma PadTrimRoundTrip(data: seq<Byte>, targetLen: nat)
    requires |data| <= targetLen
    ensures Trimmed(Padded(data, targetLen).value) == data <==> !EndsInZero(data)
    ensures |Padded(data, targetLen).value| == targetLen
  {
    TrimmedZeros(data, targetLen - |data|);
    TrimmedLength(data);
  }

  lemma {:induction false} TrimmedLength(data: seq<Byte>)
    ensures |Trimmed(data)| <= |data| && (EndsInZero(data) ==> |Trimmed(data)| < |data|)
    decreases |data|
  {
    if EndsInZero(data) { TrimmedLength(data[..|data| - 1]); }
  }
}
