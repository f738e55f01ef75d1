/** The RC4 stream cipher: its state as a value, the laws of its keystream, and the in-place class. */
module Rc4 {
  import opened Bytes

  type SBox = s: seq<byte> | |s| == 256 witness Zeros(256)

  datatype Cipher = Cipher(s: SBox, i: byte, j: byte)

  /** Addition modulo 256. */
  function Plus(a: int, b: int): byte {
    (a + b) % 256
  }

  function Swap(s: SBox, i: byte, j: byte): SBox {
    s[i := s[j]][j := s[i]]
  }

  /** The state change behind one byte of keystream; the data plays no part in it. */
  function Tick(c: Cipher): Cipher {
    var i := Plus(c.i, 1);
    var j := Plus(c.j, c.s[i]);
    Cipher(Swap(c.s, i, j), i, j)
  }

  /** The byte of keystream that the latest tick produced. */
  function Key(c: Cipher): byte {
    c.s[Plus(c.s[c.i], c.s[c.j])]
  }

  function After(c: Cipher, n: nat): Cipher {
    if n == 0 then c else Tick(After(c, n - 1))
  }

  function Process(c: Cipher, data: Bytes): (r: Bytes)
    ensures |r| == |data|
  {
    if data == [] then []
    else
      var last := |data| - 1;
      Process(c, data[..last]) + [Xor(data[last], Key(After(c, |data|)))]
  }

  function Identity(): SBox {
    seq(256, k requires 0 <= k < 256 => k)
  }

  /** The first n rounds of the key schedule: the permutation and its second index. */
  function Schedule(key: Bytes, n: nat): (SBox, byte)
    requires key != [] && n <= 256
  {
    if n == 0 then (Identity(), 0)
    else
      var (s, j) := Schedule(key, n - 1);
      var next := Plus(Plus(j, s[n - 1]), key[(n - 1) % |key|]);
      (Swap(s, n - 1, next), next)
  }

  function Keyed(key: Bytes, discard: nat): Cipher
    requires key != []
  {
    After(Cipher(Schedule(key, 256).0, 0, 0), discard)
  }

  // ----- S stays a permutation ----------------------------------------------------------------------

  predicate Injective(s: SBox) {
    forall a, b :: 0 <= a < b < 256 ==> s[a] != s[b]
  }

  lemma SwapKeeps(s: SBox, i: byte, j: byte)
    requires Injective(s)
    ensures Injective(Swap(s, i, j))
  {}

  lemma {:induction false} ScheduleKeeps(key: Bytes, n: nat)
    requires key != [] && n <= 256
    ensures Injective(Schedule(key, n).0)
  {
    if n > 0 {
      ScheduleKeeps(key, n - 1);
      SwapKeeps(Schedule(key, n - 1).0, n - 1, Schedule(key, n).1);
    }
  }

  lemma {:induction false} AfterKeeps(c: Cipher, n: nat)
    requires Injective(c.s)
    ensures Injective(After(c, n).s)
  {
    if n > 0 {
      AfterKeeps(c, n - 1);
      var d := After(c, n - 1);
      SwapKeeps(d.s, Plus(d.i, 1), Plus(d.j, d.s[Plus(d.i, 1)]));
    }
  }

  function Elements(s: seq<byte>): set<int> {
    set x: int | x in s
  }

  lemma {:induction false} DistinctElements(s: seq<byte>)
    requires forall a, b :: 0 <= a < b < |s| ==> s[a] != s[b]
    ensures |Elements(s)| == |s|
  {
    if s != [] {
      DistinctElements(s[1..]);
      assert Elements(s) == {s[0]} + Elements(s[1..]);
    }
  }

  /** Whatever the key and however much was processed, every byte value sits in S at exactly one place. */
  lemma AlwaysPermutation(key: Bytes, n: nat, x: byte) returns (k: byte)
    requires key != []
    ensures Keyed(key, n).s[k] == x
    ensures forall a: byte :: Keyed(key, n).s[a] == x ==> a == k
  {
    hide Schedule, After;
    ScheduleKeeps(key, 256);
    AfterKeeps(Cipher(Schedule(key, 256).0, 0, 0), n);
    k := PlaceOf(Keyed(key, n).s, x);
  }

  lemma PlaceOf(s: SBox, x: byte) returns (k: byte)
    requires Injective(s)
    ensures s[k] == x && forall a: byte :: s[a] == x ==> a == k
  {
    hide UpTo;
    DistinctElements(s);
    UpToMembers(256);
    if x !in s { SubsetSize(Elements(s), UpTo(256) - {x}); }
    k :| 0 <= k < 256 && s[k] == x;
  }

  // ----- laws of the keystream ------------------------------------------------------------------------

  lemma {:induction false} AfterSum(c: Cipher, a: nat, b: nat)
    ensures After(After(c, a), b) == After(c, a + b)
  {
    hide Tick;
    if b > 0 { AfterSum(c, a, b - 1); }
  }

  lemma AfterZero(c: Cipher)
    ensures After(c, 0) == c
  {}

  lemma {:induction false} ProcessAt(c: Cipher, data: Bytes, k: nat)
    requires k < |data|
    ensures Process(c, data)[k] == Xor(data[k], Key(After(c, k + 1)))
  {
    hide Xor, Key, After;
    if k < |data| - 1 { ProcessAt(c, data[..|data| - 1], k); }
  }

  /** Splitting the data does not matter: the cipher carries on where it stopped. */
  lemma ProcessConcat(c: Cipher, x: Bytes, y: Bytes)
    ensures Process(c, x + y) == Process(c, x) + Process(After(c, |x|), y)
  {
    hide Xor, Key, After, Process;
    var all := Process(c, x) + Process(After(c, |x|), y);
    forall k | 0 <= k < |x + y| ensures Process(c, x + y)[k] == all[k] {
      ProcessAt(c, x + y, k);
      if k < |x| {
        ProcessAt(c, x, k);
      } else {
        ProcessAt(After(c, |x|), y, k - |x|);
        AfterSum(c, |x|, k + 1 - |x|);
      }
    }
  }

  /** Two ciphers in the same state undo each other. */
  lemma ProcessInvolution(c: Cipher, data: Bytes)
    ensures Process(c, Process(c, data)) == data
  {
    hide Xor, Key, After, Process;
    var twice := Process(c, Process(c, data));
    forall k | 0 <= k < |data| ensures twice[k] == data[k] {
      ProcessAt(c, Process(c, data), k);
      ProcessAt(c, data, k);
      XorInvolution(data[k], Key(After(c, k + 1)));
    }
  }

  lemma ProcessSlice(c: Cipher, data: Bytes, a: nat, b: nat)
    requires a <= b <= |data|
    ensures Process(c, data)[a..b] == Process(After(c, a), data[a..b])
  {
    hide Xor, Key, After, Process;
    assert data == data[..a] + data[a..b] + data[b..];
    ProcessConcat(c, data[..a] + data[a..b], data[b..]);
    ProcessConcat(c, data[..a], data[a..b]);
  }

  // ----- the class --------------------------------------------------------------------------------------

  class RC4 {
    const S: array<byte>
    var i: byte
    var j: byte

    ghost predicate Valid()
      reads this
    {
      S.Length == 256
    }

    ghost function State(): Cipher
      requires Valid()
      reads this, S
    {
      Cipher(S[..], i, j)
    }

    constructor (key: Bytes, discard: nat)
      requires key != []
      ensures Valid() && fresh(S)
      ensures State() == Keyed(key, discard)
    {
      S := new byte[256](k => if 0 <= k < 256 then k else 0);
      i, j := 0, 0;
      new;
      assert S[..] == Identity();
      Mix(S, key);
      assert State() == Keyed(key, 0);
      if discard > 0 { var _ := Update(Zeros(discard)); }
    }

    static method Mix(S: array<byte>, key: Bytes)
      requires key != [] && S.Length == 256 && S[..] == Identity()
      modifies S
      ensures S[..] == Schedule(key, 256).0
    {
      var j: byte := 0;
      for n := 0 to 256
        invariant (S[..], j) == Schedule(key, n)
      {
        j := Plus(Plus(j, S[n]), key[n % |key|]);
        S[n], S[j] := S[j], S[n];
      }
    }

    /** `process`: the data exclusive-ored with the keystream, and the state moved on in place. */
    method Update(data: Bytes) returns (r: Bytes)
      requires Valid()
      modifies this, S
      ensures Valid()
      ensures r == Process(old(State()), data)
      ensures State() == After(old(State()), |data|)
    {
      hide Xor;
      ghost var start := State();
      var a: byte, b: byte := i, j;
      var out := new byte[|data|];
      for k := 0 to |data|
        invariant Cipher(S[..], a, b) == After(start, k)
        invariant out[..k] == Process(start, data[..k])
        invariant out != S
      {
        assert data[..k + 1][..k] == data[..k];
        a := Plus(a, 1);
        b := Plus(b, S[a]);
        S[a], S[b] := S[b], S[a];
        out[k] := Xor(data[k], S[Plus(S[a], S[b])]);
        assert out[..k + 1] == out[..k] + [out[k]];
      }
      i, j := a, b;
      assert data[..|data|] == data;
      return out[..];
    }
  }
}
