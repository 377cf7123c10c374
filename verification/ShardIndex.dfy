/** The shard hash of the sharded cache, in 64-bit two's complement arithmetic.

    The hash is a signed integer and Go's `%` keeps its sign, so the index can be
    negative; indexing with it then panics. */
module ShardIndex {
  import opened Cache

  const SIGN: bv64 := 0x8000_0000_0000_0000

  /** Go's `h >> 2` on a signed integer copies the sign bit. */
  function ShiftRight2(h: bv64): bv64 {
    if h < SIGN then h >> 2 else (h >> 2) | 0xC000_0000_0000_0000
  }

  /** The three leading bits of the result are all the sign. */
  lemma ShiftCopiesSign(h: bv64)
    ensures ShiftRight2(h) >> 61 == if h < 0x8000_0000_0000_0000 then 0 else 7
  {
  }

  function Mix(h: bv64, b: bv8): bv64 {
    h ^ ((b as bv64) + 0x9e37_79b9 + (h << 6) + ShiftRight2(h))
  }

  function Hash(key: seq<bv8>): bv64 {
    if key == [] then 0 else Mix(Hash(key[..|key| - 1]), key[|key| - 1])
  }

  /** h % 32 for signed h, truncated towards zero. */
  function Rem32(h: bv64): int {
    if h < SIGN then (h & 31) as int else -(((0 - h) & 31) as int)
  }

  /** The remainder has the sign of the number. */
  lemma RemainderKeepsSign(h: bv64)
    ensures h < 0x8000_0000_0000_0000 ==> 0 <= Rem32(h) < 32
    ensures h >= 0x8000_0000_0000_0000 ==> -32 < Rem32(h) <= 0
  {
  }

  function Index(key: seq<bv8>): int {
    Rem32(Hash(key))
  }

  method ShardIndexLoop(key: seq<bv8>) returns (index: int)
    ensures index == Index(key)
  {
    var h: bv64 := 0;
    for i := 0 to |key|
      invariant h == Hash(key[..i])
    {
      assert key[..i + 1][..i] == key[..i];
      h := Mix(h, key[i]);
    }
    assert key[..|key|] == key;
    index := Rem32(h);
  }

  // For keys of up to nine bytes the leading bits of the hash hardly depend on
  // the key: a byte only reaches the low bits before they are shifted up.

  /** The leading bits of the hash of `n` bytes. */
  predicate Leads(h: bv64, n: nat) {
    match n
    case 1 => 0x9e37_79b9 <= h <= 0x9e37_7ab8
    case 2 => h >> 12 == 0x28c_d937 || 0x28c_d947 <= h >> 12 <= 0x28c_d94b
    case 3 => 0xa16_fb21 <= h >> 16 <= 0xa16_fbef
    case 4 => 0x282_53a0 <= h >> 24 <= 0x282_53de
    case 5 => 0xa3_b72a <= h >> 32 <= 0xa3_b72f || 0xa3_b7d0 <= h >> 32 <= 0xa3_b7e0
    case 6 => 0x29_b50b <= h >> 40 <= 0x29_b511 || 0x29_b54f <= h >> 40 <= 0x29_b557
    case 7 => 0x5_e030 <= h >> 44 <= 0x5_e09e || 0x5_e739 <= h >> 44 <= 0x5_e797
    case 8 => 0xc64 <= h >> 52 <= 0xc7f || 0xea2 <= h >> 52 <= 0xec0
    case 9 => h >> 63 == 0
    case _ => false
  }

  lemma FirstByteLeads(b: bv8)
    ensures Leads(Mix(0, b), 1)
  {
  }

  lemma After1(h: bv64, b: bv8)
    requires Leads(h, 1)
    ensures Leads(Mix(h, b), 2)
  {
  }

  lemma After2(h: bv64, b: bv8)
    requires Leads(h, 2)
    ensures Leads(Mix(h, b), 3)
  {
  }

  lemma After3(h: bv64, b: bv8)
    requires Leads(h, 3)
    ensures Leads(Mix(h, b), 4)
  {
  }

  lemma After4(h: bv64, b: bv8)
    requires Leads(h, 4)
    ensures Leads(Mix(h, b), 5)
  {
  }

  lemma After5(h: bv64, b: bv8)
    requires Leads(h, 5)
    ensures Leads(Mix(h, b), 6)
  {
  }

  lemma After6(h: bv64, b: bv8)
    requires Leads(h, 6)
    ensures Leads(Mix(h, b), 7)
  {
  }

  lemma After7Low(h: bv64, b: bv8)
    requires 0x5_e030 <= h >> 44 <= 0x5_e09e
    ensures 0xc64 <= Mix(h, b) >> 52 <= 0xc7f
  {
  }

  lemma After7High(h: bv64, b: bv8)
    requires 0x5_e739 <= h >> 44 <= 0x5_e797
    ensures 0xea2 <= Mix(h, b) >> 52 <= 0xec0
  {
  }

  lemma After8Low(h: bv64, b: bv8)
    requires 0xc64 <= h >> 52 <= 0xc7f
    ensures Mix(h, b) >> 63 == 0
  {
  }

  lemma After8Middle(h: bv64, b: bv8)
    requires 0xea2 <= h >> 52 <= 0xebf
    ensures Mix(h, b) >> 63 == 0
  {
  }

  lemma After8High(h: bv64, b: bv8)
    requires h >> 52 == 0xec0
    ensures Mix(h, b) >> 63 == 0
  {
  }

  lemma NextByteLeads(h: bv64, n: nat, b: bv8)
    requires 1 <= n <= 8 && Leads(h, n)
    ensures Leads(Mix(h, b), n + 1)
  {
    match n
    case 1 => After1(h, b);
    case 2 => After2(h, b);
    case 3 => After3(h, b);
    case 4 => After4(h, b);
    case 5 => After5(h, b);
    case 6 => After6(h, b);
    case 7 =>
      if h >> 44 <= 0x5_e09e {
        After7Low(h, b);
      } else {
        After7High(h, b);
      }
    case _ =>
      if h >> 52 <= 0xc7f {
        After8Low(h, b);
      } else if h >> 52 <= 0xebf {
        After8Middle(h, b);
      } else {
        After8High(h, b);
      }
  }

  lemma {:induction false} HashLeads(key: seq<bv8>)
    requires 1 <= |key| <= 9
    ensures Leads(Hash(key), |key|)
  {
    var n := |key| - 1;
    if n == 0 {
      assert Hash(key[..0]) == 0;
      FirstByteLeads(key[0]);
    } else {
      HashLeads(key[..n]);
      NextByteLeads(Hash(key[..n]), n, key[n]);
    }
  }

  lemma LeadsSign(h: bv64, n: nat)
    requires 1 <= n <= 9 && Leads(h, n)
    ensures h < SIGN <==> n != 8
  {
  }

  /** Up to nine bytes the sign of the hash depends on the length alone. */
  lemma SignOfShortHash(key: seq<bv8>)
    requires |key| <= 9
    ensures Hash(key) < SIGN <==> |key| != 8
  {
    if key != [] {
      HashLeads(key);
      LeadsSign(Hash(key), |key|);
    }
  }

  lemma RemRange(h: bv64)
    ensures -32 < Rem32(h) < 32
    ensures h < SIGN ==> Rem32(h) >= 0
    ensures h >= SIGN ==> Rem32(h) <= 0
    ensures Rem32(h) == 0 <==> h & 31 == 0
  {
    assert (0 - h) & 31 == 0 <==> h & 31 == 0;
    assert (0 - h) & 31 < 32;
    assert h & 31 < 32;
  }

  /** The index is a shard for every key of at most seven bytes, or of nine. */
  lemma ShortKeysInRange(key: seq<bv8>)
    requires |key| <= 7 || |key| == 9
    ensures 0 <= Index(key) < 32
  {
    SignOfShortHash(key);
    RemRange(Hash(key));
  }

  /** Every hash of an eight-byte key is negative: such a key has a shard only if
      its hash happens to be a multiple of 32. */
  lemma EightByteKeys(key: seq<bv8>)
    requires |key| == 8
    ensures 0 <= Index(key) < 32 <==> Hash(key) & 31 == 0
    ensures -32 < Index(key) <= 0
  {
    SignOfShortHash(key);
    RemRange(Hash(key));
  }

  /** For keys of any length: the index is a shard if and only if the hash is not
      negative or is a multiple of 32. */
  lemma InRangeIff(key: seq<bv8>)
    ensures 0 <= Index(key) < 32 <==> Hash(key) < SIGN || Hash(key) & 31 == 0
  {
    RemRange(Hash(key));
  }

  lemma HashSnoc(key: seq<bv8>, b: bv8, h: bv64)
    requires Mix(Hash(key), b) == h
    ensures Hash(key + [b]) == h
  {
    assert (key + [b])[..|key|] == key;
  }

  /** The key "user:123" has index -15. */
  lemma UserKeyPanics()
    ensures Index([0x75, 0x73, 0x65, 0x72, 0x3a, 0x31, 0x32, 0x33]) == -15
  {
    var k1: seq<bv8> := [0x75];
    assert Mix(0, 0x75) == 0x9e377a2e;
    HashSnoc([], 0x75, 0x9e377a2e);
    assert [] + [0x75] == k1;
    var k2 := k1 + [0x73];
    assert Mix(0x9e377a2e, 0x73) == 0x28cd949e19;
    HashSnoc(k1, 0x73, 0x28cd949e19);
    var k3 := k2 + [0x65];
    assert Mix(0x28cd949e19, 0x65) == 0xa16fb50b9fd;
    HashSnoc(k2, 0x65, 0xa16fb50b9fd);
    var k4 := k3 + [0x72];
    assert Mix(0xa16fb50b9fd, 0x72) == 0x28253ca6a9e17;
    HashSnoc(k3, 0x72, 0x28253ca6a9e17);
    var k5 := k4 + [0x3a];
    assert Mix(0x28253ca6a9e17, 0x3a) == 0xa3b7dbe113392f;
    HashSnoc(k4, 0x3a, 0xa3b7dbe113392f);
    var k6 := k5 + [0x31];
    assert Mix(0xa3b7dbe113392f, 0x31) == 0x29b553343a59aada;
    HashSnoc(k5, 0x31, 0x29b553343a59aada);
    var k7 := k6 + [0x32];
    assert Mix(0x29b553343a59aada, 0x32) == 0x5e7772e8796131fb;
    HashSnoc(k6, 0x32, 0x5e7772e8796131fb);
    var k8 := k7 + [0x33];
    assert Mix(0x5e7772e8796131fb, 0x33) == 0xeb0de4316dbd74d1;
    HashSnoc(k7, 0x33, 0xeb0de4316dbd74d1);
    assert k8 == [0x75, 0x73, 0x65, 0x72, 0x3a, 0x31, 0x32, 0x33];
  }

  // Longer keys

  /** A negative hash that the byte 'T' maps to itself. */
  const STUCK: bv64 := 0xb04fb04fadd948cf

  /** "QKLPHVD)D<" */
  const TEN: seq<bv8> := [0x51, 0x4b, 0x4c, 0x50, 0x48, 0x56, 0x44, 0x29, 0x44, 0x3c]

  lemma TenIsStuck()
    ensures Hash(TEN) == STUCK
  {
    assert Mix(0, 0x51) == 0x9e377a0a;
    HashSnoc([], 0x51, 0x9e377a0a);
    var k1: seq<bv8> := [0x51];
    assert [] + [0x51] == k1;
    assert Mix(0x9e377a0a, 0x4b) == 0x28cd94a10c;
    HashSnoc(k1, 0x4b, 0x28cd94a10c);
    var k2 := k1 + [0x4b];
    assert Mix(0x28cd94a10c, 0x4c) == 0xa16fb504444;
    HashSnoc(k2, 0x4c, 0xa16fb504444);
    var k3 := k2 + [0x4c];
    assert Mix(0xa16fb504444, 0x50) == 0x28253ca4cd85e;
    HashSnoc(k3, 0x50, 0x28253ca4cd85e);
    var k4 := k3 + [0x50];
    assert Mix(0x28253ca4cd85e, 0x48) == 0xa3b7dbee4c1fc6;
    HashSnoc(k4, 0x48, 0xa3b7dbee4c1fc6);
    var k5 := k4 + [0x48];
    assert Mix(0xa3b7dbee4c1fc6, 0x56) == 0x29b55328c29e6c46;
    HashSnoc(k5, 0x56, 0x29b55328c29e6c46);
    var k6 := k5 + [0x56];
    assert Mix(0x29b55328c29e6c46, 0x44) == 0x5e774dd3b4e44ac8;
    HashSnoc(k6, 0x44, 0x5e774dd3b4e44ac8);
    var k7 := k6 + [0x44];
    assert Mix(0x5e774dd3b4e44ac8, 0x29) == 0xeb0605b17067745c;
    HashSnoc(k7, 0x29, 0xeb0605b17067745c);
    var k8 := k7 + [0x29];
    assert Mix(0xeb0605b17067745c, 0x44) == 0x5744e87864491a48;
    HashSnoc(k8, 0x44, 0x5744e87864491a48);
    var k9 := k8 + [0x44];
    assert Mix(0x5744e87864491a48, 0x3c) == 0xb04fb04fadd948cf;
    HashSnoc(k9, 0x3c, 0xb04fb04fadd948cf);
    assert k9 + [0x3c] == TEN;
  }

  lemma StuckOnceMore(key: seq<bv8>)
    requires Hash(key) == STUCK
    ensures Hash(key + [0x54]) == STUCK
  {
    assert Mix(STUCK, 0x54) == STUCK;
    HashSnoc(key, 0x54, STUCK);
  }

  function Tail(n: nat): seq<bv8> {
    seq(n, _ => 0x54)
  }

  lemma {:induction false} StaysStuck(key: seq<bv8>, n: nat)
    requires Hash(key) == STUCK
    ensures Hash(key + Tail(n)) == STUCK
  {
    if n == 0 {
      assert key + Tail(0) == key;
    } else {
      StaysStuck(key, n - 1);
      StuckOnceMore(key + Tail(n - 1));
      assert key + Tail(n) == key + Tail(n - 1) + [0x54];
    }
  }

  /** A key without a shard, of any length but those that have none. */
  lemma KeyWithoutShard(n: nat) returns (key: seq<bv8>)
    requires n == 8 || n >= 10
    ensures |key| == n && !(0 <= Index(key) < 32)
  {
    if n == 8 {
      key := [0x75, 0x73, 0x65, 0x72, 0x3a, 0x31, 0x32, 0x33];
      UserKeyPanics();
    } else {
      key := TEN + Tail(n - 10);
      TenIsStuck();
      StaysStuck(TEN, n - 10);
      RemRange(STUCK);
      assert STUCK & 31 != 0;
    }
  }

  /** The length of a key decides as much as it can: all keys of a length have a
      shard if and only if the length is at most seven or nine. */
  lemma LengthIsSafeIff(n: nat)
    ensures (forall key: seq<bv8> :: |key| == n ==> 0 <= Index(key) < 32) <==> SafeLength(n)
  {
    if n <= 7 || n == 9 {
      forall key: seq<bv8> | |key| == n ensures 0 <= Index(key) < 32 {
        ShortKeysInRange(key);
      }
    } else {
      var key := KeyWithoutShard(n);
    }
  }

  /** A key is a string of bytes, written with one character per byte. */
  function Bytes(key: string): (bs: seq<bv8>)
    ensures |bs| == |key|
  {
    seq(|key|, i requires 0 <= i < |key| => ((key[i] as int) % 256) as bv8)
  }

  function ShardOf(key: string): int {
    Index(Bytes(key))
  }

  predicate SafeLength(n: nat) {
    n <= 7 || n == 9
  }

  /** With keys of safe lengths the sharded cache answers exactly as the timed map. */
  lemma ShardedCacheWithShortKeys<T>(evs: seq<Event<T>>, key: string)
    requires SafeLength(|key|)
    requires forall e :: e in evs ==> (e.Set? || e.Delete? || e.Read? ==> SafeLength(|e.key|))
    ensures |Run(ShardOf, 32, evs).shards| == 32 && InRange(ShardOf, 32, key)
    ensures AtomicGet(ShardOf, Run(ShardOf, 32, evs), key) == Spec(evs, key)
  {
    forall k: string | SafeLength(|k|) ensures InRange(ShardOf, 32, k) {
      ShortKeysInRange(Bytes(k));
    }
    AtomicGetIsSpec(ShardOf, 32, evs, key);
  }
}
