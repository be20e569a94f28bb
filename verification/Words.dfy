/** Bytes and machine words shared by the modules. */
module Words {
  type byte = b: int | 0 <= b < 256

  /** One more than the largest uint32_t and uint64_t. */
  const WORD := 0x1_0000_0000
  const LONG := 0x1_0000_0000_0000_0000

  datatype Option<T> = None | Some(value: T)

  /** `n` bytes, least significant first. */
  function ToBytes(v: nat, n: nat): (s: seq<byte>)
    ensures |s| == n
  {
    if n == 0 then [] else [v % 256] + ToBytes(v / 256, n - 1)
  }

  function FromBytes(s: seq<byte>): nat {
    if s == [] then 0 else s[0] + 256 * FromBytes(s[1..])
  }

  function Power256(n: nat): nat { if n == 0 then 1 else 256 * Power256(n - 1) }

  lemma {:induction false} BytesRoundTrip(v: nat, n: nat)
    requires v < Power256(n)
    ensures FromBytes(ToBytes(v, n)) == v
  {
    if n > 0 {
      assert v / 256 < Power256(n - 1);
      BytesRoundTrip(v / 256, n - 1);
      assert ToBytes(v, n)[1..] == ToBytes(v / 256, n - 1);
    }
  }

  lemma {:induction false} FromBytesBound(s: seq<byte>)
    ensures FromBytes(s) < Power256(|s|)
  {
    if s != [] {
      FromBytesBound(s[1..]);
    }
  }

  lemma FourBytes(s: seq<byte>)
    requires |s| == 4
    ensures FromBytes(s) == s[0] as nat + 0x100 * s[1] as nat + 0x1_0000 * s[2] as nat + 0x100_0000 * s[3] as nat
  {
    assert FromBytes(s[1..]) == s[1] as nat + 0x100 * s[2] as nat + 0x1_0000 * s[3] as nat by {
      assert s[1..][1..] == [s[2], s[3]];
      assert [s[2], s[3]][1..] == [s[3]];
      assert [s[3]][1..] == [];
      assert FromBytes([s[3]]) == s[3];
      assert FromBytes([s[2], s[3]]) == s[2] as nat + 0x100 * s[3] as nat;
    }
  }

  lemma ModUnique(x: int, n: int, q: int, r: int)
    requires n > 0 && x == q * n + r && 0 <= r < n
    ensures x % n == r
  {
    var d := x / n - q;
    assert d * n == r - x % n;
    assert d > 0 ==> d * n >= n;
    assert d < 0 ==> d * n <= -n;
  }

  lemma ModAdvances(x: nat, n: nat)
    requires n > 0
    ensures (x + 1) % n == if x % n + 1 < n then x % n + 1 else 0
  {
    var q, r := x / n, x % n;
    assert x == q * n + r;
    if r + 1 < n {
      ModUnique(x + 1, n, q, r + 1);
    } else {
      assert x + 1 == (q + 1) * n;
      ModUnique(x + 1, n, q + 1, 0);
    }
  }
}
