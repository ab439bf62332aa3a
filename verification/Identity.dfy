/** internal/downlink/identity.go: the length-prefixed encoding behind idempotent submission. */
module Identity {
  import opened Messages

  const IDENTITY_DOMAIN := "z-courier-downlink-identity-v1"
  const U32: int := 0x1_0000_0000

  function ByteAt(n: nat, scale: nat): char
    requires scale > 0
  {
    ((n / scale) % 256) as char
  }

  /** `binary.BigEndian.PutUint32(uint32(n))`: the length is truncated to 32 bits. */
  function BigEndian32(n: nat): (r: string)
    ensures |r| == 4
  {
    var w := n % U32;
    [ByteAt(w, 0x100_0000), ByteAt(w, 0x1_0000), ByteAt(w, 0x100), ByteAt(w, 1)]
  }

  function Field(value: string): string {
    BigEndian32(|value|) + value
  }

  function IdentityPrefix(m: Message): string {
    Field(IDENTITY_DOMAIN) + Field(m.clientId) + Field(m.deviceId) + IdentityTail(m)
  }

  function IdentityTail(m: Message): string {
    BigEndian32(m.msgId) + [AckFlag(m.ackRequired)]
  }

  function IdentityFingerprint(m: Message): Digest {
    OfIdentity(IdentityPrefix(m), OfBytes(m.body))
  }

  /** The stored fingerprint when there is one, as after an upgrade there may not be. */
  function StoredFingerprint(m: Message): Digest {
    if m.fingerprint.Some? then m.fingerprint.value else IdentityFingerprint(m)
  }

  predicate HaveSameIdentity(left: Message, right: Message) {
    StoredFingerprint(left) == StoredFingerprint(right)
  }

  /** The immutable part of a submission: all that a replay must repeat. */
  predicate SameIdentityFields(a: Message, b: Message) {
    && a.clientId == b.clientId
    && a.deviceId == b.deviceId
    && a.msgId == b.msgId
    && a.ackRequired == b.ackRequired
    && a.body == b.body
  }

  /** What the wire format of a request guarantees: a 32-bit message ID, and fields whose
      length fits the 32-bit length prefix. */
  predicate Encodable(m: Message) {
    m.msgId < U32 && |m.clientId| < U32 && |m.deviceId| < U32
  }

  lemma BigEndian32Injective(a: nat, b: nat)
    requires a < U32 && b < U32 && BigEndian32(a) == BigEndian32(b)
    ensures a == b
  {
    BigEndian32Value(a);
    BigEndian32Value(b);
  }

  lemma FourDigits(n: nat)
    requires n < U32
    ensures n % U32 == n
    ensures n == (n / 0x100_0000) % 0x100 * 0x100_0000 + (n / 0x1_0000) % 0x100 * 0x1_0000
            + (n / 0x100) % 0x100 * 0x100 + n % 0x100
  {
    var b, c, d := n / 0x100, n / 0x1_0000, n / 0x100_0000;
    assert c == b / 0x100 && d == c / 0x100 && d < 0x100;
    assert n == b * 0x100 + n % 0x100 && b == c * 0x100 + b % 0x100 && c == d * 0x100 + c % 0x100;
  }

  lemma BigEndian32Value(n: nat)
    requires n < U32
    ensures var r := BigEndian32(n);
            n == (r[0] as int) * 0x100_0000 + (r[1] as int) * 0x1_0000 + (r[2] as int) * 0x100 + r[3] as int
  {
    FourDigits(n);
  }

  /** Reading one field back leaves no choice: equal encodings start with equal fields. */
  lemma FieldPrefixFree(a: string, x: string, b: string, y: string)
    requires |a| < U32 && |b| < U32
    requires Field(a) + x == Field(b) + y
    ensures a == b && x == y
  {
    var left, right := Field(a) + x, Field(b) + y;
    assert left[..4] == BigEndian32(|a|);
    assert right[..4] == BigEndian32(|b|);
    BigEndian32Injective(|a|, |b|);
    assert left[4..4 + |a|] == a && right[4..4 + |b|] == b;
    assert left[4 + |a|..] == x && right[4 + |b|..] == y;
  }

  lemma Regroup(a: string, b: string, c: string, d: string)
    ensures a + b + c + d == a + (b + (c + d))
  {
  }

  lemma FieldsPrefixFree(domain: string, c: string, d: string, x: string, c': string, d': string, x': string)
    requires |domain| < U32 && |c| < U32 && |d| < U32 && |c'| < U32 && |d'| < U32
    requires Field(domain) + Field(c) + Field(d) + x == Field(domain) + Field(c') + Field(d') + x'
    ensures c == c' && d == d' && x == x'
  {
    var rest, rest' := Field(d) + x, Field(d') + x';
    Regroup(Field(domain), Field(c), Field(d), x);
    Regroup(Field(domain), Field(c'), Field(d'), x');
    FieldPrefixFree(domain, Field(c) + rest, domain, Field(c') + rest');
    FieldPrefixFree(c, rest, c', rest');
    FieldPrefixFree(d, x, d', x');
  }

  lemma TailInjective(n: nat, f: char, n': nat, f': char)
    requires n < U32 && n' < U32
    requires BigEndian32(n) + [f] == BigEndian32(n') + [f']
    ensures n == n' && f == f'
  {
    var tail, tail' := BigEndian32(n) + [f], BigEndian32(n') + [f'];
    assert tail[..4] == BigEndian32(n) && tail'[..4] == BigEndian32(n');
    assert tail[4] == f && tail'[4] == f';
    BigEndian32Injective(n, n');
  }

  function AckFlag(ackRequired: bool): char {
    if ackRequired then 1 as char else 0 as char
  }

  /** The fingerprint identifies a submission exactly. */
  lemma FingerprintExact(a: Message, b: Message)
    requires Encodable(a) && Encodable(b)
    ensures IdentityFingerprint(a) == IdentityFingerprint(b) <==> SameIdentityFields(a, b)
  {
    if IdentityFingerprint(a) == IdentityFingerprint(b) {
      var tail, tail' := IdentityTail(a), IdentityTail(b);
      FieldsPrefixFree(IDENTITY_DOMAIN, a.clientId, a.deviceId, tail, b.clientId, b.deviceId, tail');
      TailInjective(a.msgId, AckFlag(a.ackRequired), b.msgId, AckFlag(b.ackRequired));
    }
  }

  lemma BigEndian32Periodic(n: nat, k: nat)
    ensures BigEndian32(n + k * U32) == BigEndian32(n)
  {
    assert (n + k * U32) % U32 == n % U32;
  }

  lemma Resplit(length: string, head: string, next: string, rest: string, field: string)
    ensures length + (head + next + rest) + field == length + head + (next + (rest + field))
  {
  }

  /** A field of 2^32 bytes or more can be read in two ways: its truncated length makes its head
      look like the whole field and its rest like the next one, as soon as the rest starts
      with the length of that. */
  lemma LongFieldSplits(c: string, d: string)
    requires |c| >= U32 && c[|c| % U32..|c| % U32 + 4] == BigEndian32(|d|)
    ensures var r := |c| % U32; Field(c) + Field(d) == Field(c[..r]) + Field(c[r + 4..] + Field(d))
  {
    var r, k := |c| % U32, |c| / U32;
    var rest := c[r + 4..] + Field(d);
    assert |c| == r + k * U32 && |rest| == |d| + k * U32;
    BigEndian32Periodic(r, k);
    BigEndian32Periodic(|d|, k);
    assert Field(c) == BigEndian32(r) + c && Field(rest) == BigEndian32(|d|) + rest;
    assert c == c[..r] + BigEndian32(|d|) + c[r + 4..];
    Resplit(BigEndian32(r), c[..r], BigEndian32(|d|), c[r + 4..], Field(d));
  }

  /** Without the length bound two submissions collide: for every length from 2^32 bytes on, and
      every device, some client ID of that length does. */
  lemma TruncatedLengthCollides(m: Message, n: nat) returns (client: string, other: Message)
    requires n >= U32
    ensures |client| == n
    ensures var long := m.(clientId := client);
            IdentityFingerprint(long) == IdentityFingerprint(other) && !SameIdentityFields(long, other)
  {
    var r := n % U32;
    var d := m.deviceId;
    var head: string, rest: string := seq(r, _ => 0 as char), seq(n - r - 4, _ => 0 as char);
    client := head + BigEndian32(|d|) + rest;
    assert client[r..r + 4] == BigEndian32(|d|);
    LongFieldSplits(client, d);
    other := m.(clientId := client[..r], deviceId := client[r + 4..] + Field(d));
    SameFields(m.(clientId := client), other);
  }

  lemma SameFields(a: Message, b: Message)
    requires Field(a.clientId) + Field(a.deviceId) == Field(b.clientId) + Field(b.deviceId)
    requires a.msgId == b.msgId && a.ackRequired == b.ackRequired && a.body == b.body
    ensures IdentityFingerprint(a) == IdentityFingerprint(b)
  {
    assert IdentityPrefix(a) == Field(IDENTITY_DOMAIN) + (Field(a.clientId) + Field(a.deviceId)) + IdentityTail(a);
    assert IdentityPrefix(b) == Field(IDENTITY_DOMAIN) + (Field(b.clientId) + Field(b.deviceId)) + IdentityTail(b);
  }
}
