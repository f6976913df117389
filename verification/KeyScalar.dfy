// internal/identity/key_compat.go: padScalarBytes and validateSecp256k1Scalar. OS2IP and I2OSP are the
// conversions of sections 4.1 and 4.2 of RFC 8017.
module KeyScalar {
  type byte = b: int | 0 <= b < 256

  const SCALAR_SIZE := 32
  const SECP256K1_ORDER: nat := 0xFFFFFFFFFFFFFFFFFFFFFFFFFFFFFFFEBAAEDCE6AF48A03BBFD25E8CD0364141

  // The big-endian integer of the bytes: big.Int.SetBytes.
  function OS2IP(bytes: seq<byte>): nat {
    if bytes == [] then 0 else OS2IP(bytes[..|bytes| - 1]) * 256 + bytes[|bytes| - 1]
  }

  function Zeros(n: nat): (z: seq<byte>)
    ensures |z| == n && forall i | 0 <= i < n :: z[i] == 0
  {
    seq(n, i => 0)
  }

  function Padded(raw: seq<byte>): (r: seq<byte>)
    requires |raw| <= SCALAR_SIZE
    ensures |r| == SCALAR_SIZE
  {
    Zeros(SCALAR_SIZE - |raw|) + raw
  }

  // copy(result[size-len(raw):], raw) into a zeroed buffer.
  method PadScalarBytes(raw: seq<byte>) returns (result: array<byte>)
    requires |raw| <= SCALAR_SIZE
    ensures fresh(result) && result[..] == Padded(raw)
  {
    result := new byte[SCALAR_SIZE](_ => 0);
    var from := SCALAR_SIZE - |raw|;
    for i := 0 to |raw|
      invariant forall k | 0 <= k < from :: result[k] == 0
      invariant forall k | 0 <= k < i :: result[from + k] == raw[k]
    {
      result[from + i] := raw[i];
    }
  }

  // validateSecp256k1Scalar, for a scalar of n bytes with this integer.
  predicate IsAccepted(n: nat, scalar: nat) {
    n != 0 && n <= SCALAR_SIZE && scalar > 0 && scalar < SECP256K1_ORDER
  }

  lemma {:induction false} LeadingZeros(n: nat, raw: seq<byte>)
    ensures OS2IP(Zeros(n) + raw) == OS2IP(raw)
  {
    var all := Zeros(n) + raw;
    if raw != [] {
      assert all[..|all| - 1] == Zeros(n) + raw[..|raw| - 1];
      LeadingZeros(n, raw[..|raw| - 1]);
    } else if n > 0 {
      assert all[..|all| - 1] == Zeros(n - 1) + raw;
      LeadingZeros(n - 1, raw);
    }
  }

  // On strings of one length the integer determines the bytes.
  lemma {:induction false} OS2IPInjective(a: seq<byte>, b: seq<byte>)
    requires |a| == |b| && OS2IP(a) == OS2IP(b)
    ensures a == b
  {
    if a != [] {
      var x, y := a[..|a| - 1], b[..|b| - 1];
      assert OS2IP(a) == OS2IP(x) * 256 + a[|a| - 1] && OS2IP(b) == OS2IP(y) * 256 + b[|b| - 1];
      assert OS2IP(x) == OS2IP(y);
      OS2IPInjective(x, y);
      assert a == x + [a[|a| - 1]] && b == y + [b[|b| - 1]];
    }
  }

  // Padding keeps the scalar, so an accepted one, and only such a one, is accepted as padded: one in
  // [1, n - 1].
  lemma PaddingKeepsScalar(raw: seq<byte>)
    requires |raw| <= SCALAR_SIZE
    ensures OS2IP(Padded(raw)) == OS2IP(raw)
    ensures IsAccepted(|raw|, OS2IP(raw)) <==> 1 <= OS2IP(Padded(raw)) <= SECP256K1_ORDER - 1
    ensures IsAccepted(|raw|, OS2IP(raw)) <==> IsAccepted(|Padded(raw)|, OS2IP(Padded(raw)))
  {
    assert OS2IP([]) == 0;
    hide OS2IP;
    LeadingZeros(SCALAR_SIZE - |raw|, raw);
  }

  // Two encodings are padded to the same key exactly when they encode the same value.
  lemma PaddingIsCanonical(raw: seq<byte>, other: seq<byte>)
    requires |raw| <= SCALAR_SIZE && |other| <= SCALAR_SIZE
    ensures Padded(raw) == Padded(other) <==> OS2IP(raw) == OS2IP(other)
  {
    hide OS2IP, Padded;
    PaddingKeepsScalar(raw);
    PaddingKeepsScalar(other);
    if OS2IP(raw) == OS2IP(other) {
      OS2IPInjective(Padded(raw), Padded(other));
    }
  }
}
