/**
 * Message Stream Encryption as values: what each side derives, sends and reads, for one exchange of
 * keys.  SHA-1 is a parameter; secrets, pads and everything the network does are inputs.
 */
module Mse {
  import opened Bytes
  import opened Modular
  import opened Rc4
  import opened Streams

  type Digest = d: Bytes | |d| == 20 witness Zeros(20)

  // ----- policies -------------------------------------------------------------------------------------

  datatype Policy = Disabled | Preferred | Forced

  const PLAINTEXT := 1
  const RC4_BIT := 2

  predicate Offers(provide: nat, method_: nat)
    requires method_ > 0
  {
    provide / method_ % 2 == 1
  }

  /** `crypto_provide` of an initiator. */
  function Provide(p: Policy): nat {
    match p
    case Forced => RC4_BIT
    case Disabled => PLAINTEXT
    case Preferred => PLAINTEXT + RC4_BIT
  }

  /** `crypto_select` of a receiver; None is its ValueError. */
  function Select(p: Policy, provide: nat): Option<nat> {
    match p
    case Forced => if Offers(provide, RC4_BIT) then Some(RC4_BIT) else None
    case Disabled => if Offers(provide, PLAINTEXT) then Some(PLAINTEXT) else None
    case Preferred =>
      if Offers(provide, RC4_BIT) then Some(RC4_BIT)
      else if Offers(provide, PLAINTEXT) then Some(PLAINTEXT)
      else None
  }

  /** What an initiator takes for an answer. */
  predicate Accepts(p: Policy, select: nat) {
    (select == RC4_BIT && p != Disabled) || (select == PLAINTEXT && p != Forced)
  }

  predicate Compatible(a: Policy, b: Policy) {
    {a, b} != {Disabled, Forced}
  }

  /** A receiver never selects what was not offered or what its own policy forbids. */
  lemma SelectWithinOffer(p: Policy, provide: nat)
    requires Select(p, provide).Some?
    ensures Offers(provide, Select(p, provide).value) && Accepts(p, Select(p, provide).value)
  {}

  /**
   * Two policies reach a common method exactly when they are compatible; the method is then within
   * both, and it is RC4 unless one of them is Disabled.
   */
  lemma PoliciesMeet(a: Policy, b: Policy)
    ensures Select(b, Provide(a)).Some? <==> Compatible(a, b)
    ensures Compatible(a, b) ==>
              var s := Select(b, Provide(a)).value;
              Accepts(a, s) && Accepts(b, s) && (s == RC4_BIT <==> a != Disabled && b != Disabled)
  {
    assert Forced in {a, b} <==> Forced == a || Forced == b;
  }

  // ----- key exchange ---------------------------------------------------------------------------------

  const KEY_LENGTH := 96

  datatype Group = Group(generator: nat, modulus: nat) {
    /** The modulus fits the width of a public key. */
    ghost predicate Valid() { 0 < modulus <= Pow(256, KEY_LENGTH) }

    function Public(x: nat): (r: Bytes)
      requires modulus > 0
      ensures |r| == KEY_LENGTH
    {
      BigEndian(PowMod(generator, x, modulus), KEY_LENGTH)
    }

    function Secret(theirs: Bytes, x: nat): (r: Bytes)
      requires modulus > 0
      ensures |r| == KEY_LENGTH
    {
      BigEndian(PowMod(FromBigEndian(theirs), x, modulus), KEY_LENGTH)
    }
  }

  /** Both sides derive the same secret, whatever their exponents. */
  lemma SharedSecret(g: Group, a: nat, b: nat)
    requires g.Valid()
    ensures g.Secret(g.Public(a), b) == g.Secret(g.Public(b), a)
  {
    hide Pow, BigEndian, FromBigEndian, PowMod;
    BigEndianRoundTrip(PowMod(g.generator, a, g.modulus), KEY_LENGTH);
    BigEndianRoundTrip(PowMod(g.generator, b, g.modulus), KEY_LENGTH);
    SecretsAgree(g.generator, a, b, g.modulus);
  }

  // ----- what is derived from the secret ----------------------------------------------------------------

  /** "req1", "req2", "req3", "keyA", "keyB". */
  const REQ1: Bytes := [114, 101, 113, 49]
  const REQ2: Bytes := [114, 101, 113, 50]
  const REQ3: Bytes := [114, 101, 113, 51]
  const KEY_A: Bytes := [107, 101, 121, 65]
  const KEY_B: Bytes := [107, 101, 121, 66]
  const DISCARD := 1024

  /** The verification constant. */
  const VC: Bytes := [0, 0, 0, 0, 0, 0, 0, 0]

  function XorBytes(a: Bytes, b: Bytes): (r: Bytes)
    ensures |r| == Min(|a|, |b|)
  {
    seq(Min(|a|, |b|), k requires 0 <= k < Min(|a|, |b|) => Xor(a[k], b[k]))
  }

  lemma XorCancels(a: Bytes, b: Bytes, c: Bytes)
    requires |a| == |b| == |c| && XorBytes(a, c) == XorBytes(b, c)
    ensures a == b
  {
    hide Xor;
    forall k | 0 <= k < |a| ensures a[k] == b[k] {
      assert XorBytes(a, c)[k] == XorBytes(b, c)[k];
      XorInvolution(a[k], c[k]);
      XorInvolution(b[k], c[k]);
    }
  }

  /** The hash function, and what a connection derives with it from its secret. */
  datatype Derivation = Derivation(sha1: Bytes -> Digest, secret: Bytes) {
    function Req1(): Digest { sha1(REQ1 + secret) }

    function Obfuscated(infoHash: Bytes): (r: Bytes)
      ensures |r| == 20
    {
      XorBytes(sha1(REQ2 + infoHash), sha1(REQ3 + secret))
    }

    /** The initiator's cipher. */
    function CipherA(infoHash: Bytes): Cipher { Keyed(sha1(KEY_A + secret + infoHash), DISCARD) }

    /** The receiver's cipher. */
    function CipherB(infoHash: Bytes): Cipher { Keyed(sha1(KEY_B + secret + infoHash), DISCARD) }

    /** How the receiver's verification constant looks on the wire. */
    function Marker(infoHash: Bytes): (r: Bytes)
      ensures |r| == 8
    {
      Process(CipherB(infoHash), VC)
    }

    /** The torrent an obfuscated hash stands for, among the keys of the lookup in their order. */
    function Lookup(hashes: seq<Bytes>, obfuscated: Bytes): Option<Bytes> {
      if hashes == [] then None
      else if Obfuscated(hashes[0]) == obfuscated then Some(hashes[0])
      else Lookup(hashes[1..], obfuscated)
    }

    function SecondFlight(infoHash: Bytes, policy: Policy, padC: Bytes): Bytes {
      Req1() + Obfuscated(infoHash) + Process(CipherA(infoHash), HelloBlock(Provide(policy), padC))
    }

    function Reply(infoHash: Bytes, select: nat, padD: Bytes): Bytes {
      Process(CipherB(infoHash), ReplyBlock(select, padD))
    }
  }

  function HelloBlock(provide: nat, padC: Bytes): (r: Bytes)
    ensures |r| == 16 + |padC|
  {
    VC + BigEndian(provide, 4) + BigEndian(|padC|, 2) + padC + BigEndian(0, 2)
  }

  function ReplyBlock(select: nat, padD: Bytes): (r: Bytes)
    ensures |r| == 14 + |padD|
  {
    VC + BigEndian(select, 4) + BigEndian(|padD|, 2) + padD
  }

  /** The lookup finds the initiator's torrent exactly when it is among the keys. */
  lemma {:induction false} LookupFinds(d: Derivation, hashes: seq<Bytes>, infoHash: Bytes)
    requires forall h :: h in hashes && d.sha1(REQ2 + h) == d.sha1(REQ2 + infoHash) ==> h == infoHash
    ensures d.Lookup(hashes, d.Obfuscated(infoHash)) == if infoHash in hashes then Some(infoHash) else None
  {
    hide Xor, XorBytes;
    if hashes != [] {
      if d.Obfuscated(hashes[0]) == d.Obfuscated(infoHash) {
        XorCancels(d.sha1(REQ2 + hashes[0]), d.sha1(REQ2 + infoHash), d.sha1(REQ3 + d.secret));
        assert hashes[0] in hashes;
      } else {
        LookupFinds(d, hashes[1..], infoHash);
      }
    }
  }

  // ----- finding the marker -----------------------------------------------------------------------------

  predicate OccursAt(s: Bytes, m: Bytes, k: nat) {
    k + |m| <= |s| && s[k..k + |m|] == m
  }

  predicate FirstAt(s: Bytes, m: Bytes, k: nat) {
    OccursAt(s, m, k) && forall j: nat :: j < k ==> !OccursAt(s, m, j)
  }

  function FindFrom(s: Bytes, m: Bytes, k: nat): Option<nat>
    decreases |s| - k
  {
    if k + |m| > |s| then None
    else if s[k..k + |m|] == m then Some(k)
    else FindFrom(s, m, k + 1)
  }

  /** `bytes.find`. */
  function Find(s: Bytes, m: Bytes): Option<nat> { FindFrom(s, m, 0) }

  lemma {:induction false} FindFromIsFirst(s: Bytes, m: Bytes, k: nat)
    requires forall j: nat :: j < k ==> !OccursAt(s, m, j)
    ensures FindFrom(s, m, k).Some? ==> FirstAt(s, m, FindFrom(s, m, k).value)
    ensures FindFrom(s, m, k).None? ==> forall j: nat :: !OccursAt(s, m, j)
    decreases |s| - k
  {
    if k + |m| <= |s| && s[k..k + |m|] != m { FindFromIsFirst(s, m, k + 1); }
  }

  lemma FindIsFirst(s: Bytes, m: Bytes)
    ensures forall k: nat :: Find(s, m) == Some(k) <==> FirstAt(s, m, k)
    ensures Find(s, m).None? <==> forall k: nat :: !OccursAt(s, m, k)
  {
    FindFromIsFirst(s, m, 0);
    if Find(s, m).Some? {
      var f := Find(s, m).value;
      forall k: nat | FirstAt(s, m, k) ensures k == f {
        assert OccursAt(s, m, k) && OccursAt(s, m, f);
      }
    }
  }

  lemma FindFits(s: Bytes, m: Bytes)
    ensures Find(s, m).Some? ==> Find(s, m).value + |m| <= |s|
  {
    FindIsFirst(s, m);
  }

  lemma OccursInPrefix(s: Bytes, n: nat, m: Bytes, k: nat)
    requires n <= |s|
    ensures OccursAt(s[..n], m, k) <==> OccursAt(s, m, k) && k + |m| <= n
  {
    if k + |m| <= n { assert s[..n][k..k + |m|] == s[k..k + |m|]; }
  }

  /** A prefix shows the first occurrence as soon as it holds all of it, and nothing before. */
  lemma FindInPrefix(s: Bytes, n: nat, m: Bytes)
    requires n <= |s|
    ensures Find(s[..n], m) == if Find(s, m).Some? && Find(s, m).value + |m| <= n then Find(s, m) else None
  {
    hide FindFrom, Find;
    FindIsFirst(s, m);
    FindIsFirst(s[..n], m);
    forall k: nat ensures OccursAt(s[..n], m, k) <==> OccursAt(s, m, k) && k + |m| <= n {
      OccursInPrefix(s, n, m, k);
    }
    if Find(s[..n], m).Some? {
      assert FirstAt(s, m, Find(s[..n], m).value);
    }
  }

  // ----- scanning in chunks -------------------------------------------------------------------------------

  /** How the scan ends, and how many bytes it has taken by then. */
  datatype ScanEnd = Found(taken: nat) | OutOfStream | OverLimit

  const CHUNK := 1024

  /**
   * The scanning loop over `total` bytes, in the chunks the schedule makes of them: read on until the
   * marker, which stands at `pos`, is complete and `tail` bytes from its start are there; give up once
   * more than `limit` bytes lack it.
   */
  function Scan(schedule: nat -> nat, turn: nat, taken: nat, total: nat, pos: Option<nat>, size: nat, tail: nat,
                limit: nat): (r: ScanEnd)
    requires taken <= total
    ensures r.Found? ==> pos.Some? && taken <= r.taken <= total && pos.value + tail <= r.taken
    ensures r.OverLimit? ==> pos.None? || pos.value + size > limit
    ensures r.OutOfStream? ==> pos.None? || pos.value + tail > total
    decreases total - taken
  {
    if pos.Some? && pos.value + tail <= taken then Found(taken)
    else
      var now := taken + Arrives(schedule(turn), CHUNK, total - taken);
      if now == taken then OutOfStream
      else if now > limit && (pos.None? || pos.value + size > now) then OverLimit
      else Scan(schedule, turn + 1, now, total, pos, size, tail, limit)
  }

  /** Beyond how many scanned bytes each side gives up, and how much it wants from the marker on. */
  const INITIATOR_LIMIT := 600
  const RECEIVER_LIMIT := 700
  const MARKER_SIZE := 8
  const HASH_SIZE := 20
  const HASHES := 40

  /** The initiator's scan for the receiver's marker. */
  function ScanForReply(d: Derivation, infoHash: Bytes, w: Bytes, schedule: nat -> nat): ScanEnd {
    Scan(schedule, 0, 0, |w|, Find(w, d.Marker(infoHash)), MARKER_SIZE, MARKER_SIZE, INITIATOR_LIMIT)
  }

  /** The receiver's scan for the initiator's hash. */
  function ScanForHello(d: Derivation, v: Bytes, schedule: nat -> nat): ScanEnd {
    Scan(schedule, 0, 0, |v|, Find(v, d.Req1()), HASH_SIZE, HASHES, RECEIVER_LIMIT)
  }

  // ----- reading the encrypted blocks -------------------------------------------------------------------

  datatype Failure = Closed | MarkerMissing | VcMismatch | UnknownTorrent | Unacceptable

  /** The outcome of a handshake: the bytes up to `next` belong to it, payload follows. */
  datatype Verdict = Agreed(infoHash: Bytes, select: nat, next: nat) | Refused(why: Failure)

  /** The first 14 bytes of a block: VC, a 32-bit value and the length of the pad that follows. */
  datatype Head = ShortHead | NoVcHead | Head(value: nat, padLength: nat)

  function ReadHead(w: Bytes, pos: nat, c: Cipher): (r: Head)
    ensures r.Head? ==> pos + 14 <= |w|
  {
    if pos + 14 > |w| then ShortHead
    else
      var head := Process(c, w[pos..pos + 14]);
      if head[..8] != VC then NoVcHead else Head(FromBigEndian(head[8..12]), FromBigEndian(head[12..14]))
  }

  datatype Block = Short | NoVc | Block(value: nat, next: nat)

  /** The receiver's reply: the head and its pad. */
  function ReadReply(w: Bytes, pos: nat, c: Cipher): (r: Block)
    ensures r.Block? ==> pos + 14 <= r.next <= |w|
  {
    match ReadHead(w, pos, c)
    case ShortHead => Short
    case NoVcHead => NoVc
    case Head(value, padLength) => if pos + 14 + padLength > |w| then Short else Block(value, pos + 14 + padLength)
  }

  /** The initiator's block: the head, its pad with the length of an initial payload, and that payload. */
  function ReadHello(w: Bytes, pos: nat, c: Cipher): (r: Block)
    ensures r.Block? ==> pos + 16 <= r.next <= |w|
  {
    match ReadHead(w, pos, c)
    case ShortHead => Short
    case NoVcHead => NoVc
    case Head(value, padLength) =>
      var need := padLength + 2;
      if pos + 14 + need > |w| then Short
      else
        var rest := Process(After(c, 14), w[pos + 14..pos + 14 + need]);
        var length := FromBigEndian(rest[padLength..need]);
        if pos + 14 + need + length > |w| then Short else Block(value, pos + 14 + need + length)
  }

  /** What the initiator concludes from the bytes after the receiver's public key. */
  function InitiatorVerdict(d: Derivation, infoHash: Bytes, policy: Policy, w: Bytes): Verdict {
    var pos := Find(w, d.Marker(infoHash));
    if pos.None? then Refused(Closed)
    else
      match ReadReply(w, pos.value, d.CipherB(infoHash))
      case Short => Refused(Closed)
      case NoVc => Refused(VcMismatch)
      case Block(select, next) =>
        if Accepts(policy, select) then Agreed(infoHash, select, next) else Refused(Unacceptable)
  }

  /** What the receiver concludes from the bytes after the initiator's public key. */
  function ReceiverVerdict(d: Derivation, hashes: seq<Bytes>, policy: Policy, v: Bytes): Verdict {
    var pos := Find(v, d.Req1());
    if pos.None? || pos.value + 40 > |v| then Refused(Closed)
    else
      var matched := d.Lookup(hashes, v[pos.value + 20..pos.value + 40]);
      if matched.None? then Refused(UnknownTorrent)
      else
        match ReadHello(v, pos.value + 40, d.CipherA(matched.value))
        case Short => Refused(Closed)
        case NoVc => Refused(VcMismatch)
        case Block(provide, next) =>
          var select := Select(policy, provide);
          if select.None? then Refused(Unacceptable) else Agreed(matched.value, select.value, next)
  }

  /** The marker is where the cipher starts: the check of the constant behind it cannot fail. */
  lemma MarkerDecryptsToVc(d: Derivation, infoHash: Bytes, policy: Policy, w: Bytes)
    ensures InitiatorVerdict(d, infoHash, policy, w) != Refused(VcMismatch)
  {
    hide Process, After, FromBigEndian;
    var c, m := d.CipherB(infoHash), d.Marker(infoHash);
    FindIsFirst(w, m);
    var pos := Find(w, m);
    if pos.Some? && pos.value + 14 <= |w| {
      var block := w[pos.value..pos.value + 14];
      ProcessSlice(c, block, 0, 8);
      assert block[0..8] == m;
      ProcessInvolution(c, VC);
      AfterZero(c);
    }
  }

  // ----- honest peers understand each other -------------------------------------------------------------

  lemma SmallFields(value: nat, length: nat)
    requires value <= 3 && length <= 512
    ensures FromBigEndian(BigEndian(value, 4)) == value && FromBigEndian(BigEndian(length, 2)) == length
  {
    assert Pow(256, 1) == 256;
    assert Pow(256, 2) == 65536;
    assert Pow(256, 3) == 16777216;
    assert Pow(256, 4) == 4294967296;
    BigEndianRoundTrip(value, 4);
    BigEndianRoundTrip(length, 2);
  }

  lemma HeadFields(head: Bytes, a: Bytes, b: Bytes)
    requires |a| == 4 && |b| == 2 && head == VC + a + b
    ensures head[..8] == VC && head[8..12] == a && head[12..14] == b
  {}

  /** Where a block begins in a stream, its sender's cipher reads its head back. */
  lemma ReadHeadOf(before: Bytes, c: Cipher, value: nat, pad: Bytes, tail: Bytes, after: Bytes)
    requires value <= 3 && |pad| <= 512
    ensures ReadHead(before + Process(c, ReplyBlock(value, pad) + tail) + after, |before|, c) == Head(value, |pad|)
  {
    hide Process, After, BigEndian, FromBigEndian;
    var block := ReplyBlock(value, pad) + tail;
    var wire := Process(c, block);
    var w := before + wire + after;
    var k := |before|;
    assert w[k..k + 14] == wire[0..14];
    ProcessSlice(c, wire, 0, 14);
    AfterZero(c);
    ProcessInvolution(c, block);
    assert block[0..14] == VC + BigEndian(value, 4) + BigEndian(|pad|, 2);
    var head := Process(c, w[k..k + 14]);
    HeadFields(head, BigEndian(value, 4), BigEndian(|pad|, 2));
    SmallFields(value, |pad|);
  }

  lemma ReadReplyOf(before: Bytes, c: Cipher, value: nat, pad: Bytes, after: Bytes)
    requires value <= 3 && |pad| <= 512
    ensures ReadReply(before + Process(c, ReplyBlock(value, pad)) + after, |before|, c)
         == Block(value, |before| + 14 + |pad|)
  {
    hide Process, ReadHead;
    ReadHeadOf(before, c, value, pad, [], after);
    assert ReplyBlock(value, pad) + [] == ReplyBlock(value, pad);
  }

  lemma HelloIsBlock(provide: nat, padC: Bytes)
    ensures HelloBlock(provide, padC) == ReplyBlock(provide, padC) + BigEndian(0, 2)
  {}

  lemma ReadHelloOf(before: Bytes, c: Cipher, provide: nat, padC: Bytes, after: Bytes)
    requires provide <= 3 && |padC| <= 512
    ensures ReadHello(before + Process(c, HelloBlock(provide, padC)) + after, |before|, c)
         == Block(provide, |before| + 16 + |padC|)
  {
    hide Process, After, BigEndian, FromBigEndian, ReadHead;
    HelloIsBlock(provide, padC);
    ReadHeadOf(before, c, provide, padC, BigEndian(0, 2), after);
    var block, n := HelloBlock(provide, padC), |padC|;
    var wire := Process(c, block);
    var w, k := before + wire + after, |before|;
    assert w[k + 14..k + 14 + (n + 2)] == wire[14..16 + n];
    ProcessSlice(c, wire, 14, 16 + n);
    ProcessInvolution(c, block);
    assert block[14..16 + n] == padC + BigEndian(0, 2);
    assert (padC + BigEndian(0, 2))[n..n + 2] == BigEndian(0, 2);
    SmallFields(0, 0);
  }

  /** The marker does not show up before the end of the pad. */
  ghost predicate NotEarlier(stream: Bytes, marker: Bytes, pad: Bytes) {
    forall k: nat :: k < |pad| ==> !OccursAt(stream, marker, k)
  }

  lemma FoundBehindPad(pad: Bytes, marker: Bytes, after: Bytes)
    requires NotEarlier(pad + marker + after, marker, pad)
    ensures Find(pad + marker + after, marker) == Some(|pad|)
  {
    hide Find;
    var s := pad + marker + after;
    assert s[|pad|..|pad| + |marker|] == marker;
    assert OccursAt(s, marker, |pad|);
    FindIsFirst(s, marker);
  }

  /** No two torrents of the lookup are confused by the hash. */
  ghost predicate Unconfused(sha1: Bytes -> Digest, hashes: seq<Bytes>, infoHash: Bytes) {
    forall h :: h in hashes && sha1(REQ2 + h) == sha1(REQ2 + infoHash) ==> h == infoHash
  }

  lemma FourParts(a: Bytes, b: Bytes, c: Bytes, d: Bytes)
    ensures var s := a + (b + c + d);
            |s| == |a| + |b| + |c| + |d| && s[|a| + |b|..|a| + |b| + |c|] == c
            && s == (a + b + c) + d && s == a + b + (c + d)
  {}

  /** What a receiver should make of an honest initiator whose handshake ends at `next`. */
  function HonestVerdict(infoHash: Bytes, policyA: Policy, hashes: seq<Bytes>, policyB: Policy, next: nat): (r: Verdict)
    ensures r.Agreed? <==> infoHash in hashes && Compatible(policyA, policyB)
  {
    PoliciesMeet(policyA, policyB);
    if infoHash !in hashes then Refused(UnknownTorrent)
    else if !Compatible(policyA, policyB) then Refused(Unacceptable)
    else Agreed(infoHash, Select(policyB, Provide(policyA)).value, next)
  }

  /** The receiver of an honest first block: it fails only for an unknown torrent or clashing policies. */
  lemma ReceiverUnderstands(d: Derivation, infoHash: Bytes, policyA: Policy, padA: Bytes, padC: Bytes,
                            hashes: seq<Bytes>, policyB: Policy, after: Bytes)
    requires |padC| <= 512 && Unconfused(d.sha1, hashes, infoHash)
    requires NotEarlier(padA + d.SecondFlight(infoHash, policyA, padC) + after, d.Req1(), padA)
    ensures ReceiverVerdict(d, hashes, policyB, padA + d.SecondFlight(infoHash, policyA, padC) + after) ==
              HonestVerdict(infoHash, policyA, hashes, policyB, |padA| + 56 + |padC|)
  {
    hide Process, Find, OccursAt, ReadHello, HelloBlock, Keyed, Compatible;
    var v := padA + d.SecondFlight(infoHash, policyA, padC) + after;
    var req1, obfuscated, c := d.Req1(), d.Obfuscated(infoHash), d.CipherA(infoHash);
    var wire := Process(c, HelloBlock(Provide(policyA), padC));
    FourParts(padA, req1, obfuscated, wire + after);
    assert v == padA + (req1 + obfuscated + (wire + after));
    FoundBehindPad(padA, req1, obfuscated + (wire + after));
    LookupFinds(d, hashes, infoHash);
    ReadHelloOf(padA + req1 + obfuscated, c, Provide(policyA), padC, after);
    assert v == padA + req1 + obfuscated + wire + after;
    PoliciesMeet(policyA, policyB);
  }

  lemma ReplyStartsWithMarker(d: Derivation, infoHash: Bytes, select: nat, padD: Bytes)
    ensures d.Reply(infoHash, select, padD)[..8] == d.Marker(infoHash)
  {
    hide Process, After, Keyed;
    var c, block := d.CipherB(infoHash), ReplyBlock(select, padD);
    ProcessSlice(c, block, 0, 8);
    AfterZero(c);
    assert block[0..8] == VC;
  }

  /** The initiator, given an honest reply, agrees. */
  lemma InitiatorUnderstands(d: Derivation, infoHash: Bytes, policy: Policy, select: nat,
                             padB: Bytes, padD: Bytes, after: Bytes)
    requires |padD| <= 512 && Accepts(policy, select)
    requires NotEarlier(padB + d.Reply(infoHash, select, padD) + after, d.Marker(infoHash), padB)
    ensures InitiatorVerdict(d, infoHash, policy, padB + d.Reply(infoHash, select, padD) + after)
         == Agreed(infoHash, select, |padB| + 14 + |padD|)
  {
    hide Process, Find, OccursAt, ReadReply, ReplyBlock, Keyed;
    var reply, marker, c := d.Reply(infoHash, select, padD), d.Marker(infoHash), d.CipherB(infoHash);
    ReplyStartsWithMarker(d, infoHash, select, padD);
    assert reply == marker + reply[8..];
    assert padB + reply + after == padB + marker + (reply[8..] + after);
    FoundBehindPad(padB, marker, reply[8..] + after);
    ReadReplyOf(padB, c, select, padD, after);
  }

  // ----- one honest exchange ------------------------------------------------------------------------------

  datatype Initiator = Initiator(infoHash: Bytes, policy: Policy, exponent: nat, padA: Bytes, padC: Bytes)

  datatype Receiver = Receiver(hashes: seq<Bytes>, policy: Policy, exponent: nat, padB: Bytes, padD: Bytes)

  /** An honest initiator and an honest receiver, and what follows their handshakes on the wire, sooner or later. */
  datatype Scene = Scene(group: Group, sha1: Bytes -> Digest, a: Initiator, b: Receiver, moreA: Bytes, moreB: Bytes) {
    function DerivedByA(): Derivation
      requires group.modulus > 0
    {
      Derivation(sha1, group.Secret(group.Public(b.exponent), a.exponent))
    }

    function DerivedByB(): Derivation
      requires group.modulus > 0
    {
      Derivation(sha1, group.Secret(group.Public(a.exponent), b.exponent))
    }

    /** What A's handshake writes. */
    function FromA(): Bytes
      requires group.modulus > 0
    {
      group.Public(a.exponent) + a.padA + DerivedByA().SecondFlight(a.infoHash, a.policy, a.padC)
    }

    /** The answer B gives to A's offer, if the policies have one. */
    function Selected(): Option<nat> { Select(b.policy, Provide(a.policy)) }

    /** What B's handshake writes, when it accepts A. */
    function FromB(): Bytes
      requires group.modulus > 0 && Selected().Some?
    {
      group.Public(b.exponent) + b.padB + DerivedByB().Reply(a.infoHash, Selected().value, b.padD)
    }

    /** A's cipher behind its handshake, and B's. */
    function CipherOfA(): Cipher
      requires group.modulus > 0
    {
      After(DerivedByA().CipherA(a.infoHash), 16 + |a.padC|)
    }

    function CipherOfB(): Cipher
      requires group.modulus > 0
    {
      After(DerivedByA().CipherB(a.infoHash), 14 + |b.padD|)
    }

    function AfterKeyOfA(): Bytes
      requires group.modulus > 0
    {
      a.padA + DerivedByA().SecondFlight(a.infoHash, a.policy, a.padC) + moreA
    }

    function AfterKeyOfB(): Bytes
      requires group.modulus > 0 && Selected().Some?
    {
      b.padB + DerivedByB().Reply(a.infoHash, Selected().value, b.padD) + moreB
    }

    /** Pads of the allowed size, and markers that do not show up by accident inside the pads. */
    ghost predicate Honest() {
      && group.Valid()
      && |a.padA| <= 512 && |a.padC| <= 512 && |b.padB| <= 512 && |b.padD| <= 512
      && Unconfused(sha1, b.hashes, a.infoHash)
      && NotEarlier(AfterKeyOfA(), DerivedByA().Req1(), a.padA)
      && (Selected().Some? ==> NotEarlier(AfterKeyOfB(), DerivedByB().Marker(a.infoHash), b.padB))
    }
  }

  lemma {:induction false} PowPositive(base: nat, n: nat)
    requires base > 0
    ensures Pow(base, n) > 0
  {
    if n > 0 {
      PowPositive(base, n - 1);
      Multiple(Pow(base, n - 1), base);
    }
  }

  /** A pad of n bytes other than the marker's first cannot hold the marker's beginning. */
  lemma PadWithout(marker: Bytes, n: nat) returns (pad: Bytes)
    requires marker != []
    ensures |pad| == n && forall k :: 0 <= k < n ==> pad[k] != marker[0]
  {
    pad := seq(n, _ => if marker[0] == 0 then 1 else 0);
  }

  lemma NotInPad(pad: Bytes, marker: Bytes, after: Bytes)
    requires marker != [] && forall k :: 0 <= k < |pad| ==> pad[k] != marker[0]
    ensures NotEarlier(pad + after, marker, pad)
  {
    var stream := pad + after;
    forall k: nat | k < |pad| ensures !OccursAt(stream, marker, k) {
      if k + |marker| <= |stream| { assert stream[k..k + |marker|][0] == pad[k]; }
    }
  }

  /** For any hash function, torrent, policies, exponents, pad sizes and payloads there is an honest scene. */
  lemma HonestScene(sha1: Bytes -> Digest, infoHash: Bytes, a: Policy, b: Policy, xa: nat, xb: nat,
                    sizeA: nat, sizeB: nat, padC: Bytes, padD: Bytes, moreA: Bytes, moreB: Bytes)
      returns (s: Scene)
    requires sizeA <= 512 && sizeB <= 512 && |padC| <= 512 && |padD| <= 512
    ensures s.Honest() && s.sha1 == sha1 && s.b.hashes == [infoHash]
    ensures s.a.infoHash == infoHash && s.a.policy == a && s.b.policy == b && s.a.exponent == xa && s.b.exponent == xb
    ensures |s.a.padA| == sizeA && |s.b.padB| == sizeB && s.a.padC == padC && s.b.padD == padD
    ensures s.moreA == moreA && s.moreB == moreB
  {
    hide Pow, Process, Keyed, NotEarlier, OccursAt, BigEndian, FromBigEndian, PowMod, HelloBlock, ReplyBlock, XorBytes;
    PowPositive(256, KEY_LENGTH);
    var group := Group(2, Pow(256, KEY_LENGTH));
    var da := Derivation(sha1, group.Secret(group.Public(xb), xa));
    var db := Derivation(sha1, group.Secret(group.Public(xa), xb));
    var padA := PadWithout(da.Req1(), sizeA);
    var padB := PadWithout(db.Marker(infoHash), sizeB);
    s := Scene(group, sha1, Initiator(infoHash, a, xa, padA, padC), Receiver([infoHash], b, xb, padB, padD),
               moreA, moreB);
    assert s.DerivedByA() == da && s.DerivedByB() == db;
    var flight := da.SecondFlight(infoHash, a, padC);
    assert s.AfterKeyOfA() == padA + (flight + moreA);
    NotInPad(padA, da.Req1(), flight + moreA);
    if s.Selected().Some? {
      var reply := db.Reply(infoHash, s.Selected().value, padD);
      assert s.AfterKeyOfB() == padB + (reply + moreB);
      NotInPad(padB, db.Marker(infoHash), reply + moreB);
    }
  }

  /** Both sides of a scene derive the same things. */
  lemma SameDerivation(s: Scene)
    requires s.group.Valid()
    ensures s.DerivedByA() == s.DerivedByB()
  {
    SharedSecret(s.group, s.a.exponent, s.b.exponent);
  }

  /** B's side fails exactly for an unknown torrent or incompatible policies; else it knows A's torrent. */
  lemma ReceiverAgrees(s: Scene)
    requires s.Honest()
    ensures ReceiverVerdict(s.DerivedByB(), s.b.hashes, s.b.policy, s.AfterKeyOfA()) ==
              HonestVerdict(s.a.infoHash, s.a.policy, s.b.hashes, s.b.policy, |s.a.padA| + 56 + |s.a.padC|)
  {
    hide Process, Find, OccursAt, Keyed, ReceiverVerdict, BigEndian, FromBigEndian, PowMod, HelloBlock, ReplyBlock;
    SameDerivation(s);
    ReceiverUnderstands(s.DerivedByB(), s.a.infoHash, s.a.policy, s.a.padA, s.a.padC, s.b.hashes, s.b.policy, s.moreA);
  }

  /** Where B has an answer to A's offer, A agrees to it. */
  lemma InitiatorAgrees(s: Scene)
    requires s.Honest() && s.Selected().Some?
    ensures InitiatorVerdict(s.DerivedByA(), s.a.infoHash, s.a.policy, s.AfterKeyOfB())
         == Agreed(s.a.infoHash, s.Selected().value, |s.b.padB| + 14 + |s.b.padD|)
  {
    hide Process, Find, OccursAt, Keyed, InitiatorVerdict, BigEndian, FromBigEndian, PowMod, HelloBlock, ReplyBlock;
    SameDerivation(s);
    PoliciesMeet(s.a.policy, s.b.policy);
    InitiatorUnderstands(s.DerivedByA(), s.a.infoHash, s.a.policy, s.Selected().value, s.b.padB, s.b.padD, s.moreB);
  }

  /** Each marker is found behind its pad, so neither side comes near the length at which it gives up. */
  lemma MarkersInReach(s: Scene)
    requires s.Honest()
    ensures Find(s.AfterKeyOfA(), s.DerivedByB().Req1()) == Some(|s.a.padA|)
    ensures s.Selected().Some? ==> Find(s.AfterKeyOfB(), s.DerivedByA().Marker(s.a.infoHash)) == Some(|s.b.padB|)
  {
    hide Process, Find, OccursAt, Keyed, BigEndian, FromBigEndian, PowMod, HelloBlock, ReplyBlock;
    SameDerivation(s);
    var d := s.DerivedByA();
    var flight := d.SecondFlight(s.a.infoHash, s.a.policy, s.a.padC);
    assert flight == d.Req1() + flight[20..];
    assert s.AfterKeyOfA() == s.a.padA + d.Req1() + (flight[20..] + s.moreA);
    FoundBehindPad(s.a.padA, d.Req1(), flight[20..] + s.moreA);
    if s.Selected().Some? {
      var reply, marker := d.Reply(s.a.infoHash, s.Selected().value, s.b.padD), d.Marker(s.a.infoHash);
      ReplyStartsWithMarker(d, s.a.infoHash, s.Selected().value, s.b.padD);
      assert reply == marker + reply[8..];
      assert s.AfterKeyOfB() == s.b.padB + marker + (reply[8..] + s.moreB);
      FoundBehindPad(s.b.padB, marker, reply[8..] + s.moreB);
    }
  }

  /** The scene without what follows the handshakes. */
  function Bare(s: Scene): Scene { s.(moreA := [], moreB := []) }

  lemma NotEarlierInPrefix(stream: Bytes, n: nat, marker: Bytes, pad: Bytes)
    requires n <= |stream| && NotEarlier(stream, marker, pad)
    ensures NotEarlier(stream[..n], marker, pad)
  {
    forall k: nat | k < |pad| ensures !OccursAt(stream[..n], marker, k) { OccursInPrefix(stream, n, marker, k); }
  }

  lemma CutAt(front: Bytes, more: Bytes)
    ensures front + [] == front == (front + more)[..|front|]
  {}

  lemma BareHonest(s: Scene)
    requires s.Honest()
    ensures Bare(s).Honest()
    ensures Bare(s).FromA() == s.FromA() && Bare(s).AfterKeyOfA() <= s.AfterKeyOfA()
    ensures s.Selected().Some? ==> Bare(s).FromB() == s.FromB() && Bare(s).AfterKeyOfB() <= s.AfterKeyOfB()
  {
    hide NotEarlier, Process, Keyed, BigEndian, PowMod, HelloBlock, ReplyBlock, XorBytes;
    var d := s.DerivedByA();
    var front := s.a.padA + d.SecondFlight(s.a.infoHash, s.a.policy, s.a.padC);
    CutAt(front, s.moreA);
    NotEarlierInPrefix(s.AfterKeyOfA(), |front|, d.Req1(), s.a.padA);
    if s.Selected().Some? {
      var back := s.b.padB + s.DerivedByB().Reply(s.a.infoHash, s.Selected().value, s.b.padD);
      CutAt(back, s.moreB);
      NotEarlierInPrefix(s.AfterKeyOfB(), |back|, s.DerivedByB().Marker(s.a.infoHash), s.b.padB);
    }
  }

  // ----- what each side has sent ------------------------------------------------------------------------

  /** What an initiator has sent by the time it has received `incoming` and waits for more, fails or is done. */
  function InitiatorSends(group: Group, sha1: Bytes -> Digest, a: Initiator, incoming: Bytes): Bytes
    requires group.modulus > 0
  {
    group.Public(a.exponent) + a.padA +
    if |incoming| < KEY_LENGTH then []
    else
      Derivation(sha1, group.Secret(incoming[..KEY_LENGTH], a.exponent)).SecondFlight(a.infoHash, a.policy, a.padC)
  }

  /** The same for a receiver; the schedule matters where its scan gives up. */
  function ReceiverSends(group: Group, sha1: Bytes -> Digest, b: Receiver, incoming: Bytes, schedule: nat -> nat): Bytes
    requires group.modulus > 0
  {
    if |incoming| < KEY_LENGTH then []
    else
      var d, v := Derivation(sha1, group.Secret(incoming[..KEY_LENGTH], b.exponent)), incoming[KEY_LENGTH..];
      var verdict := ReceiverVerdict(d, b.hashes, b.policy, v);
      group.Public(b.exponent) + b.padB +
      if verdict.Agreed? && !ScanForHello(d, v, schedule).OverLimit? then
        d.Reply(verdict.infoHash, verdict.select, b.padD)
      else []
  }

  /** A scan that finds its marker in a stream finds it in a longer one, never later in its reading. */
  lemma {:induction false} ScanOfPrefix(schedule: nat -> nat, turn: nat, taken: nat, short: nat, long: nat,
                                        pos: Option<nat>, size: nat, tail: nat, limit: nat)
    requires taken <= short <= long && size <= tail
    ensures var a := Scan(schedule, turn, taken, short, pos, size, tail, limit);
            var b := Scan(schedule, turn, taken, long, pos, size, tail, limit);
            && (a.Found? ==> b.Found? && a.taken <= b.taken)
            && (b.Found? && b.taken <= short ==> a == b)
    decreases short - taken
  {
    if pos.None? || pos.value + tail > taken {
      var now := taken + Arrives(schedule(turn), CHUNK, short - taken);
      if now == taken + Arrives(schedule(turn), CHUNK, long - taken) && now > taken {
        ScanOfPrefix(schedule, turn + 1, now, short, long, pos, size, tail, limit);
      }
    }
  }

  lemma PrefixSlice(v: Bytes, more: Bytes, i: nat, j: nat)
    requires v <= more && i <= j <= |v|
    ensures v[i..j] == more[i..j] && v == more[..|v|]
  {}

  /** More bytes do not change what was read of a block that is complete. */
  lemma ReadHelloOfPrefix(v: Bytes, more: Bytes, pos: nat, c: Cipher)
    requires v <= more && ReadHello(v, pos, c).Block?
    ensures ReadHello(more, pos, c) == ReadHello(v, pos, c)
  {
    hide Process, After, FromBigEndian;
    PrefixSlice(v, more, pos, pos + 14);
    var n := ReadHead(v, pos, c).padLength;
    PrefixSlice(v, more, pos + 14, pos + 14 + (n + 2));
  }

  lemma AgreedOfPrefix(d: Derivation, hashes: seq<Bytes>, policy: Policy, v: Bytes, more: Bytes)
    requires v <= more && ReceiverVerdict(d, hashes, policy, v).Agreed?
    ensures ReceiverVerdict(d, hashes, policy, more) == ReceiverVerdict(d, hashes, policy, v)
    ensures Find(v, d.Req1()) == Find(more, d.Req1())
  {
    hide Find, ReadHello, Process, Keyed, XorBytes;
    FindInPrefix(more, |v|, d.Req1());
    var pos := Find(v, d.Req1()).value;
    PrefixSlice(v, more, pos + 20, pos + 40);
    ReadHelloOfPrefix(v, more, pos + 40, d.CipherA(d.Lookup(hashes, v[pos + 20..pos + 40]).value));
  }

  lemma ScanOfAgreed(d: Derivation, hashes: seq<Bytes>, policy: Policy, v: Bytes, more: Bytes, schedule: nat -> nat)
    requires v <= more && ReceiverVerdict(d, hashes, policy, v).Agreed? && !ScanForHello(d, v, schedule).OverLimit?
    ensures ScanForHello(d, more, schedule).Found?
  {
    hide ReadHello, Find, Scan, Keyed, XorBytes;
    AgreedOfPrefix(d, hashes, policy, v, more);
    ScanOfPrefix(schedule, 0, 0, |v|, |more|, Find(v, d.Req1()), HASH_SIZE, HASHES, RECEIVER_LIMIT);
  }

  /** Both sides only ever add to what they sent: the more has arrived, the more is sent. */
  lemma InitiatorSendsMore(group: Group, sha1: Bytes -> Digest, a: Initiator, incoming: Bytes, more: Bytes)
    requires group.modulus > 0 && incoming <= more
    ensures InitiatorSends(group, sha1, a, incoming) <= InitiatorSends(group, sha1, a, more)
  {
    hide Process, Keyed, HelloBlock, BigEndian, FromBigEndian, PowMod, XorBytes;
    if |incoming| >= KEY_LENGTH {
      assert incoming[..KEY_LENGTH] == more[..KEY_LENGTH];
    }
  }

  lemma ReceiverSendsMore(group: Group, sha1: Bytes -> Digest, b: Receiver, incoming: Bytes, more: Bytes,
                          schedule: nat -> nat)
    requires group.modulus > 0 && incoming <= more
    ensures ReceiverSends(group, sha1, b, incoming, schedule) <= ReceiverSends(group, sha1, b, more, schedule)
  {
    hide Process, Keyed, ReplyBlock, BigEndian, FromBigEndian, PowMod, XorBytes, ReceiverVerdict, ScanForHello;
    if |incoming| >= KEY_LENGTH {
      assert incoming[..KEY_LENGTH] == more[..KEY_LENGTH];
      var d, v := Derivation(sha1, group.Secret(incoming[..KEY_LENGTH], b.exponent)), incoming[KEY_LENGTH..];
      if ReceiverVerdict(d, b.hashes, b.policy, v).Agreed? && !ScanForHello(d, v, schedule).OverLimit? {
        AgreedOfPrefix(d, b.hashes, b.policy, v, more[KEY_LENGTH..]);
        ScanOfAgreed(d, b.hashes, b.policy, v, more[KEY_LENGTH..], schedule);
      }
    }
  }

  lemma KeyFirst(key: Bytes, pad: Bytes, rest: Bytes)
    requires |key| == KEY_LENGTH
    ensures |key + pad + rest| >= KEY_LENGTH && (key + pad + rest)[..KEY_LENGTH] == key
    ensures (key + pad + rest)[KEY_LENGTH..] == pad + rest && key + pad + [] == key + pad
  {}

  /** In a scene: the key alone, and with B's key the whole of A's handshake. */
  lemma SentByA(s: Scene, incoming: Bytes)
    requires s.group.modulus > 0
    ensures InitiatorSends(s.group, s.sha1, s.a, []) == s.group.Public(s.a.exponent) + s.a.padA
    ensures s.group.Public(s.b.exponent) <= incoming ==> InitiatorSends(s.group, s.sha1, s.a, incoming) == s.FromA()
  {
    hide Process, Keyed, HelloBlock, BigEndian, FromBigEndian, PowMod, XorBytes;
    KeyFirst(s.group.Public(s.a.exponent), s.a.padA, []);
    if s.group.Public(s.b.exponent) <= incoming {
      assert incoming[..KEY_LENGTH] == s.group.Public(s.b.exponent);
    }
  }

  /** In a scene: with A's key at least B's, and with A's handshake the whole of B's. */
  lemma SentByB(s: Scene, incoming: Bytes, schedule: nat -> nat)
    requires s.Honest()
    ensures s.group.Public(s.a.exponent) <= incoming ==>
              s.group.Public(s.b.exponent) + s.b.padB <= ReceiverSends(s.group, s.sha1, s.b, incoming, schedule)
    ensures s.a.infoHash in s.b.hashes && s.Selected().Some? ==>
              ReceiverSends(s.group, s.sha1, s.b, s.FromA(), schedule) == s.FromB()
  {
    hide Process, Keyed, ReplyBlock, BigEndian, FromBigEndian, PowMod, XorBytes, ReceiverVerdict, Find, Scan, OccursAt;
    var keyB := s.group.Public(s.b.exponent);
    if s.a.infoHash in s.b.hashes && s.Selected().Some? {
      BareHonest(s);
      ReceiverAgrees(Bare(s));
      PoliciesMeet(s.a.policy, s.b.policy);
      HonestScansFind(Bare(s), schedule);
      var flight := s.DerivedByA().SecondFlight(s.a.infoHash, s.a.policy, s.a.padC);
      KeyFirst(s.group.Public(s.a.exponent), s.a.padA, flight);
      CutAt(s.a.padA + flight, []);
    }
  }

  /**
   * Neither side waits for what the other has not sent.  When all that either side sent has arrived at
   * the other, both have sent their whole handshake: there is no other way to come to rest.
   */
  lemma NobodyWaits(s: Scene, atA: Bytes, atB: Bytes, schedule: nat -> nat)
    requires s.Honest() && s.a.infoHash in s.b.hashes && s.Selected().Some?
    ensures (atB == InitiatorSends(s.group, s.sha1, s.a, atA)
             && atA == ReceiverSends(s.group, s.sha1, s.b, atB, schedule))
            <==> atB == s.FromA() && atA == s.FromB()
  {
    hide Process, Keyed, HelloBlock, ReplyBlock, BigEndian, FromBigEndian, PowMod, XorBytes, InitiatorSends,
         ReceiverSends, NotEarlier;
    SentByA(s, atA);
    SentByA(s, s.FromB());
    SentByB(s, atB, schedule);
    InitiatorSendsMore(s.group, s.sha1, s.a, [], atA);
  }

  // ----- how much a handshake takes from the stream ---------------------------------------------------------

  /** The end of A's own handshake bytes behind its key, and of B's. */
  function EndOfHello(s: Scene): nat { |s.a.padA| + 56 + |s.a.padC| }

  function EndOfReply(s: Scene): nat { |s.b.padB| + 14 + |s.b.padD| }

  /** How many bytes behind B's key A has taken when its handshake is done: all of them, or more if the scan did. */
  function TakenByA(s: Scene, schedule: nat -> nat): nat
    requires s.group.modulus > 0 && s.Selected().Some?
  {
    var scan := ScanForReply(s.DerivedByA(), s.a.infoHash, s.AfterKeyOfB(), schedule);
    if scan.Found? then Max(scan.taken, EndOfReply(s)) else EndOfReply(s)
  }

  function TakenByB(s: Scene, schedule: nat -> nat): nat
    requires s.group.modulus > 0
  {
    var scan := ScanForHello(s.DerivedByB(), s.AfterKeyOfA(), schedule);
    if scan.Found? then Max(scan.taken, EndOfHello(s)) else EndOfHello(s)
  }

  /** Whatever the schedule, an honest peer's marker is found: neither limit is hit, nor the end of the stream. */
  lemma HonestScansFind(s: Scene, schedule: nat -> nat)
    requires s.Honest()
    ensures |s.AfterKeyOfA()| == EndOfHello(s) + |s.moreA|
    ensures ScanForHello(s.DerivedByB(), s.AfterKeyOfA(), schedule).Found?
    ensures TakenByB(s, schedule) <= |s.AfterKeyOfA()|
    ensures s.Selected().Some? ==>
              && |s.AfterKeyOfB()| == EndOfReply(s) + |s.moreB|
              && ScanForReply(s.DerivedByA(), s.a.infoHash, s.AfterKeyOfB(), schedule).Found?
              && TakenByA(s, schedule) <= |s.AfterKeyOfB()|
  {
    hide Process, Find, OccursAt, Keyed, BigEndian, FromBigEndian, PowMod, HelloBlock, ReplyBlock, XorBytes, NotEarlier,
         Scan;
    MarkersInReach(s);
  }

  /** What is left for A's caller when plaintext was selected, and for B's. */
  function PlainRestForA(s: Scene, schedule: nat -> nat): Bytes
    requires s.Honest() && s.Selected().Some?
  {
    HonestScansFind(s, schedule);
    s.AfterKeyOfB()[TakenByA(s, schedule)..]
  }

  function PlainRestForB(s: Scene, schedule: nat -> nat): Bytes
    requires s.Honest()
  {
    HonestScansFind(s, schedule);
    s.AfterKeyOfA()[TakenByB(s, schedule)..]
  }

  /** A scan that is first given all but the last byte of the marker, and then `extra` bytes more. */
  lemma TwoChunks(schedule: nat -> nat, total: nat, pos: nat, size: nat, tail: nat, limit: nat, extra: nat)
    requires 0 < size <= tail && pos + size - 1 <= limit && 0 < pos + size - 1 <= CHUNK && 0 < extra <= CHUNK
    requires schedule(0) == pos + size - 1 && schedule(1) == extra
    requires pos + tail <= pos + size - 1 + extra <= total
    ensures Scan(schedule, 0, 0, total, Some(pos), size, tail, limit) == Found(pos + size - 1 + extra)
  {
    var first := pos + size - 1;
    assert Arrives(schedule(0), CHUNK, total) == first;
    assert Arrives(schedule(1), CHUNK, total - first) == extra;
    assert Scan(schedule, 2, first + extra, total, Some(pos), size, tail, limit) == Found(first + extra);
    assert Scan(schedule, 1, first, total, Some(pos), size, tail, limit) == Found(first + extra);
  }

  /** The network first delivers `first` bytes, and after that always `then_`. */
  function FirstThen(first: nat, then_: nat): nat -> nat {
    k => if k == 0 then first else then_
  }

  // ----- plaintext payload behind a handshake -----------------------------------------------------------

  lemma RestIsPayload(stream: Bytes, end: nat, payload: Bytes, taken: nat)
    requires end <= taken <= |stream| == end + |payload| && stream[end..] == payload
    ensures stream[taken..] == payload <==> taken == end
  {}

  lemma PayloadBehind(front: Bytes, payload: Bytes)
    ensures (front + payload)[|front|..] == payload
  {}

  /**
   * With plaintext selected A goes on with all that B's caller sends, under a given schedule, if and only
   * if A's scan took no more than B's handshake; that is, if it read as if the payload were not there yet.
   */
  lemma PlainInitiatorKeepsIff(s: Scene, schedule: nat -> nat)
    requires s.Honest() && s.Selected() == Some(PLAINTEXT)
    ensures var scan := ScanForReply(s.DerivedByA(), s.a.infoHash, s.AfterKeyOfB(), schedule);
            && scan.Found?
            && (PlainRestForA(s, schedule) == s.moreB <==> scan.taken <= EndOfReply(s))
            && (scan.taken <= EndOfReply(s) <==>
                scan == ScanForReply(s.DerivedByA(), s.a.infoHash, Bare(s).AfterKeyOfB(), schedule))
  {
    hide Process, Find, Keyed, BigEndian, FromBigEndian, PowMod, HelloBlock, ReplyBlock, XorBytes, NotEarlier, Scan;
    BareHonest(s);
    HonestScansFind(s, schedule);
    HonestScansFind(Bare(s), schedule);
    MarkersInReach(s);
    MarkersInReach(Bare(s));
    ScanOfPrefix(schedule, 0, 0, EndOfReply(s), |s.AfterKeyOfB()|, Some(|s.b.padB|), MARKER_SIZE, MARKER_SIZE,
                 INITIATOR_LIMIT);
    PayloadBehind(s.b.padB + s.DerivedByB().Reply(s.a.infoHash, PLAINTEXT, s.b.padD), s.moreB);
    RestIsPayload(s.AfterKeyOfB(), EndOfReply(s), s.moreB, TakenByA(s, schedule));
  }

  /**
   * A's payload is not there while B scans, so B's scan is the one over A's handshake alone.  It is so for
   * every initiator that sends payload only when it has the reply, which B writes after its scan.
   */
  ghost predicate InitiatorWaits(s: Scene, schedule: nat -> nat)
    requires s.group.modulus > 0
  {
    ScanForHello(s.DerivedByB(), s.AfterKeyOfA(), schedule)
    == ScanForHello(s.DerivedByB(), Bare(s).AfterKeyOfA(), schedule)
  }

  /** The same for B and what A's caller sends. */
  lemma PlainReceiverKeepsIff(s: Scene, schedule: nat -> nat)
    requires s.Honest() && s.Selected() == Some(PLAINTEXT)
    ensures var scan := ScanForHello(s.DerivedByB(), s.AfterKeyOfA(), schedule);
            && scan.Found?
            && (PlainRestForB(s, schedule) == s.moreA <==> scan.taken <= EndOfHello(s))
            && (scan.taken <= EndOfHello(s) <==> InitiatorWaits(s, schedule))
  {
    hide Process, Find, Keyed, BigEndian, FromBigEndian, PowMod, HelloBlock, ReplyBlock, XorBytes, NotEarlier, Scan;
    BareHonest(s);
    HonestScansFind(s, schedule);
    HonestScansFind(Bare(s), schedule);
    MarkersInReach(s);
    MarkersInReach(Bare(s));
    ScanOfPrefix(schedule, 0, 0, EndOfHello(s), |s.AfterKeyOfA()|, Some(|s.a.padA|), HASH_SIZE, HASHES, RECEIVER_LIMIT);
    PayloadBehind(s.a.padA + s.DerivedByA().SecondFlight(s.a.infoHash, s.a.policy, s.a.padC), s.moreA);
    RestIsPayload(s.AfterKeyOfA(), EndOfHello(s), s.moreA, TakenByB(s, schedule));
  }

  /** A receiver loses nothing of an initiator that waits for the reply, whatever the chunks. */
  lemma WaitingLosesNothing(s: Scene, schedule: nat -> nat)
    requires s.Honest() && s.Selected() == Some(PLAINTEXT) && InitiatorWaits(s, schedule)
    ensures PlainRestForB(s, schedule) == s.moreA
  {
    hide Process, Find, Keyed, BigEndian, FromBigEndian, PowMod, HelloBlock, ReplyBlock, XorBytes, NotEarlier, Scan,
         PlainRestForB;
    PlainReceiverKeepsIff(s, schedule);
  }

  /** The schedule that makes A's second read run one byte into B's payload. */
  lemma ReplyReadAhead(s: Scene) returns (schedule: nat -> nat)
    requires s.Honest() && s.Selected().Some? && s.moreB != []
    ensures PlainRestForA(s, schedule) == s.moreB[1..]
  {
    hide Process, Find, OccursAt, Keyed, BigEndian, FromBigEndian, PowMod, HelloBlock, ReplyBlock, XorBytes, NotEarlier,
         Scan;
    var first, extra := |s.b.padB| + 7, |s.b.padD| + 8;
    schedule := FirstThen(first, extra);
    MarkersInReach(s);
    HonestScansFind(s, schedule);
    TwoChunks(schedule, |s.AfterKeyOfB()|, |s.b.padB|, MARKER_SIZE, MARKER_SIZE, INITIATOR_LIMIT, extra);
    var w := s.AfterKeyOfB();
    assert TakenByA(s, schedule) == EndOfReply(s) + 1;
    DropOne(w[..EndOfReply(s)], s.moreB);
    assert w == w[..EndOfReply(s)] + s.moreB;
  }

  /**
   * The schedule that makes B's second read run one byte into A's payload, which an initiator must then have
   * sent without waiting for the reply.
   */
  lemma HelloReadAhead(s: Scene) returns (schedule: nat -> nat)
    requires s.Honest() && s.moreA != []
    ensures PlainRestForB(s, schedule) == s.moreA[1..]
  {
    hide Process, Find, OccursAt, Keyed, BigEndian, FromBigEndian, PowMod, HelloBlock, ReplyBlock, XorBytes, NotEarlier,
         Scan;
    var first, extra := |s.a.padA| + 19, |s.a.padC| + 38;
    schedule := FirstThen(first, extra);
    MarkersInReach(s);
    HonestScansFind(s, schedule);
    TwoChunks(schedule, |s.AfterKeyOfA()|, |s.a.padA|, HASH_SIZE, HASHES, RECEIVER_LIMIT, extra);
    var v := s.AfterKeyOfA();
    assert TakenByB(s, schedule) == EndOfHello(s) + 1;
    DropOne(v[..EndOfHello(s)], s.moreA);
    assert v == v[..EndOfHello(s)] + s.moreA;
  }

  lemma DropOne(front: Bytes, payload: Bytes)
    requires payload != []
    ensures (front + payload)[|front| + 1..] == payload[1..]
  {}

  /**
   * With plaintext selected the initiator goes on with the receiver's payload, however the bytes arrive,
   * if and only if there is none: any payload loses its first byte under some schedule.  A receiver is free
   * to send payload right behind its reply.
   */
  lemma PlainInitiatorContinuesIff(s: Scene)
    requires s.Honest() && s.Selected() == Some(PLAINTEXT)
    ensures (forall schedule: nat -> nat :: PlainRestForA(s, schedule) == s.moreB) <==> s.moreB == []
  {
    hide Process, Find, OccursAt, Keyed, BigEndian, FromBigEndian, PowMod, HelloBlock, ReplyBlock, XorBytes, NotEarlier,
         Scan;
    if s.moreB == [] {
      forall schedule: nat -> nat ensures PlainRestForA(s, schedule) == s.moreB { HonestScansFind(s, schedule); }
    } else {
      var schedule := ReplyReadAhead(s);
    }
  }

  /**
   * The same for the receiver, over all the ways the bytes of an initiator may arrive that sends its payload
   * without waiting for the reply; for one that waits see WaitingLosesNothing.
   */
  lemma PlainReceiverContinuesIff(s: Scene)
    requires s.Honest() && s.Selected() == Some(PLAINTEXT)
    ensures (forall schedule: nat -> nat :: PlainRestForB(s, schedule) == s.moreA) <==> s.moreA == []
  {
    hide Process, Find, OccursAt, Keyed, BigEndian, FromBigEndian, PowMod, HelloBlock, ReplyBlock, XorBytes, NotEarlier,
         Scan;
    if s.moreA == [] {
      forall schedule: nat -> nat ensures PlainRestForB(s, schedule) == s.moreA { HonestScansFind(s, schedule); }
    } else {
      var schedule := HelloReadAhead(s);
    }
  }
}
