/** Readiness tokens: a sandbox id and the kind of descriptor, packed in one machine word. */
module Tokens {
  import opened Words

  const TOKEN_TYPE_PIDFD := 0
  const TOKEN_TYPE_STDOUT := 1
  const TOKEN_TYPE_STDERR := 2

  type Kind = k: nat | k < 4

  /** Ids from here on lose their highest bits in a token. */
  const ID_LIMIT := 0x4000_0000_0000_0000

  /** `(id << 2) | kind` on a 64-bit word. */
  function Encode(id: nat, kind: Kind): u64 {
    id * 4 % 0x1_0000_0000_0000_0000 + kind
  }

  /** `(token >> 2, token & 0b11)`. */
  function Decode(token: u64): (nat, Kind) {
    (token / 4, token % 4)
  }

  /** What decoding gives back: the id up to its two highest bits, and the kind. */
  lemma DecodeEncode(id: nat, kind: Kind)
    ensures Decode(Encode(id, kind)) == (id % ID_LIMIT, kind)
  {
    var lost := id / ID_LIMIT;
    var kept := id % ID_LIMIT;
    assert id * 4 == lost * 0x1_0000_0000_0000_0000 + kept * 4;
    assert Encode(id, kind) == kept * 4 + kind;
  }

  /** Below 2^62 the id stands above the two bits of the kind: 0 for the pidfd, 1 for stdout, 2 for stderr. */
  lemma Layout(id: nat)
    requires id < 0x4000_0000_0000_0000
    ensures Encode(id, TOKEN_TYPE_PIDFD) == 4 * id
    ensures Encode(id, TOKEN_TYPE_STDOUT) == 4 * id + 1 && Encode(id, TOKEN_TYPE_STDERR) == 4 * id + 2
  {
  }

  /** Decoding inverts encoding exactly for ids below 2^62. */
  lemma RoundTrip(id: nat, kind: Kind)
    ensures Decode(Encode(id, kind)) == (id, kind) <==> id < ID_LIMIT
  {
    DecodeEncode(id, kind);
  }

  /** Two descriptors share a token exactly when their kinds agree and their ids agree modulo 2^62. */
  lemma SameToken(a: nat, j: Kind, b: nat, k: Kind)
    ensures Encode(a, j) == Encode(b, k) <==> j == k && a % ID_LIMIT == b % ID_LIMIT
  {
    DecodeEncode(a, j);
    DecodeEncode(b, k);
    if j == k && a % ID_LIMIT == b % ID_LIMIT {
      EncodeDecode(Encode(a, j));
      EncodeDecode(Encode(b, k));
    }
  }

  /** So below 2^62 distinct descriptors have distinct tokens, and from there on they do not. */
  lemma DistinctTokens(a: nat, j: Kind, b: nat, k: Kind)
    ensures a < ID_LIMIT && b < ID_LIMIT ==> (Encode(a, j) == Encode(b, k) <==> (a, j) == (b, k))
    ensures Encode(a, j) == Encode(a + ID_LIMIT, j)
  {
    SameToken(a, j, b, k);
    SameToken(a, j, a + ID_LIMIT, j);
  }

  /** Every token is the encoding of what it decodes to. */
  lemma EncodeDecode(token: u64)
    ensures Encode(Decode(token).0, Decode(token).1) == token
  {
    assert token == token / 4 * 4 + token % 4;
  }
}
