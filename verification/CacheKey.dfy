/** Cache keys: what identifies one cached quota read, and why comparing
    fingerprints compares credentials. */
module CacheKey {
  import opened Text

  newtype Byte = b: int | 0 <= b < 256
  type Bytes = seq<Byte>

  const CODEX_PROVIDER: string := "codex"

  datatype Kind = CodexResource | CodexNative | ProviderQuery

  /** The key the cache stores: credential contents appear only as a hash. */
  datatype HashedKey<F> = HashedKey(kind: Kind, provider: string, authIndex: string, fingerprint: F)

  /** The key the rest of the model uses: the credential contents themselves. */
  datatype Key = Key(kind: Kind, provider: string, authIndex: string, rawAuth: Bytes, extra: Bytes)

  function NormalProvider(provider: string): string {
    ToLower(TrimSpace(provider))
  }

  function NewKey(kind: Kind, provider: string, authIndex: string, rawAuth: Bytes, extra: Bytes): Key {
    Key(kind, NormalProvider(provider), TrimSpace(authIndex), rawAuth, extra)
  }

  /** Two keys read the same upstream credential. */
  predicate SameCredential(a: Key, b: Key) {
    a.provider == b.provider && a.authIndex == b.authIndex && a.rawAuth == b.rawAuth
  }

  /** What one invalidation is aimed at; a blank authIndex means every
      credential of the provider. */
  datatype Target = Target(provider: string, authIndex: string)

  function NewTarget(provider: string, authIndex: string): Target {
    Target(NormalProvider(provider), TrimSpace(authIndex))
  }

  predicate Matches(target: Target, key: Key) {
    key.provider == target.provider && (target.authIndex == "" || key.authIndex == target.authIndex)
  }

  /** In the terms of whoever invalidates and whoever reads: the provider compares without
      regard to case and padding, and a blank auth index stands for all of them. */
  lemma MatchesExactly(p: string, i: string, kind: Kind, q: string, j: string, rawAuth: Bytes, extra: Bytes)
    ensures Matches(NewTarget(p, i), NewKey(kind, q, j, rawAuth, extra)) <==>
            ToLower(TrimSpace(p)) == ToLower(TrimSpace(q)) && (TrimSpace(i) == "" || TrimSpace(i) == TrimSpace(j))
  {
  }

  function Pow256(width: nat): nat {
    if width == 0 then 1 else 256 * Pow256(width - 1)
  }

  /** binary.LittleEndian.PutUint64 for width 8: digits beyond the width are lost. */
  function LittleEndian(n: nat, width: nat): (r: Bytes)
    ensures |r| == width
  {
    if width == 0 then [] else [(n % 256) as Byte] + LittleEndian(n / 256, width - 1)
  }

  function Decode(bytes: Bytes): nat {
    if bytes == [] then 0 else bytes[0] as nat + 256 * Decode(bytes[1..])
  }

  lemma {:induction false} LittleEndianRoundTrip(n: nat, width: nat)
    ensures Decode(LittleEndian(n, width)) == n <==> n < Pow256(width)
  {
    if width > 0 {
      LittleEndianRoundTrip(n / 256, width - 1);
      DecodeBound(LittleEndian(n / 256, width - 1));
      assert LittleEndian(n, width)[1..] == LittleEndian(n / 256, width - 1);
    }
  }

  lemma {:induction false} DecodeBound(bytes: Bytes)
    ensures Decode(bytes) < Pow256(|bytes|)
  {
    if bytes != [] {
      DecodeBound(bytes[1..]);
    }
  }

  /** The bytes that are hashed: both parts behind their lengths. */
  function Preimage(rawAuth: Bytes, extra: Bytes): Bytes {
    LittleEndian(|rawAuth|, 8) + rawAuth + LittleEndian(|extra|, 8) + extra
  }

  /** Length prefixes make the concatenation unambiguous. */
  lemma PreimageInjective(a: Bytes, x: Bytes, b: Bytes, y: Bytes)
    requires |a| < Pow256(8) && |b| < Pow256(8) && |x| < Pow256(8) && |y| < Pow256(8)
    ensures Preimage(a, x) == Preimage(b, y) <==> a == b && x == y
  {
    hide LittleEndian, Decode, Pow256;
    if Preimage(a, x) == Preimage(b, y) {
      var p, q := Preimage(a, x), Preimage(b, y);
      assert LittleEndian(|a|, 8) == p[..8] && LittleEndian(|b|, 8) == q[..8];
      LittleEndianRoundTrip(|a|, 8);
      LittleEndianRoundTrip(|b|, 8);
      assert a == p[8..8 + |a|] && b == q[8..8 + |b|];
      assert x == p[16 + |a|..] && y == q[16 + |b|..];
    }
  }

  function HashKey<F>(hash: Bytes -> F, kind: Kind, provider: string, authIndex: string,
                      rawAuth: Bytes, extra: Bytes): HashedKey<F> {
    HashedKey(kind, NormalProvider(provider), TrimSpace(authIndex), hash(Preimage(rawAuth, extra)))
  }

  ghost predicate Injective<F(!new)>(hash: Bytes -> F) {
    forall p: Bytes, q: Bytes :: hash(p) == hash(q) ==> p == q
  }

  /** With a collision-free hash, the stored key distinguishes exactly what the
      credential-carrying key distinguishes, so the model may use the latter. */
  lemma HashedKeysAgree<F(!new)>(hash: Bytes -> F,
                                 k: Kind, p: string, i: string, a: Bytes, x: Bytes,
                                 l: Kind, q: string, j: string, b: Bytes, y: Bytes)
    requires Injective(hash)
    requires |a| < Pow256(8) && |b| < Pow256(8) && |x| < Pow256(8) && |y| < Pow256(8)
    ensures HashKey(hash, k, p, i, a, x) == HashKey(hash, l, q, j, b, y)
       <==> NewKey(k, p, i, a, x) == NewKey(l, q, j, b, y)
    ensures HashKey(hash, k, p, i, a, x) == HashKey(hash, l, q, j, b, y)
       <==> k == l && ToLower(TrimSpace(p)) == ToLower(TrimSpace(q)) && TrimSpace(i) == TrimSpace(j) && a == b && x == y
  {
    PreimageInjective(a, x, b, y);
  }
}
