/**
 Byte-addressed memory with little-endian loads and stores.
 */
module Memory {
  import opened Sizes
  import opened Bytes

  type Bytemap = map<nat, Byte>

  function Peek(m: Bytemap, a: nat): Byte { if a in m then m[a] else 0 }

  function Load(m: Bytemap, a: nat, n: nat): nat
    decreases n
  {
    if n == 0 then 0 else (Peek(m, a) as nat) + 256 * Load(m, a + 1, n - 1)
  }

  function Store(m: Bytemap, a: nat, n: nat, v: nat): Bytemap
    decreases n
  {
    if n == 0 then m else Store(m[a := v % 256], a + 1, n - 1, v / 256)
  }

  lemma {:induction false} StorePeek(m: Bytemap, a: nat, n: nat, v: nat, x: nat)
    requires x < a || a + n <= x
    ensures Peek(Store(m, a, n, v), x) == Peek(m, x)
    decreases n
  {
    if n > 0 { StorePeek(m[a := v % 256], a + 1, n - 1, v / 256, x); }
  }

  lemma {:induction false} LoadSame(m: Bytemap, m': Bytemap, a: nat, n: nat)
    requires forall x :: a <= x < a + n ==> Peek(m', x) == Peek(m, x)
    ensures Load(m', a, n) == Load(m, a, n)
    decreases n
  {
    if n > 0 { LoadSame(m, m', a + 1, n - 1); }
  }

  lemma {:induction false} LoadStore(m: Bytemap, a: nat, n: nat, v: nat)
    requires v < Pow256(n)
    ensures Load(Store(m, a, n, v), a, n) == v
    decreases n
  {
    if n > 0 {
      PowStep(n);
      hide Pow256;
      var m1 := m[a := v % 256];
      assert v / 256 < Pow256(n - 1);
      LoadStore(m1, a + 1, n - 1, v / 256);
      StorePeek(m1, a + 1, n - 1, v / 256, a);
    }
  }

  /** A store leaves loads from elsewhere alone. */
  lemma LoadPast(m: Bytemap, a: nat, n: nat, v: nat, b: nat, k: nat)
    requires b + k <= a || a + n <= b
    ensures Load(Store(m, a, n, v), b, k) == Load(m, b, k)
  {
    hide Load, Store;
    forall x | b <= x < b + k ensures Peek(Store(m, a, n, v), x) == Peek(m, x) {
      StorePeek(m, a, n, v, x);
    }
    LoadSame(m, Store(m, a, n, v), b, k);
  }

  lemma LoadStored(m: Bytemap, a: nat, n: nat, v: nat)
    requires (n == 8 && v < U64) || (n == 4 && v < U32)
    ensures Load(Store(m, a, n, v), a, n) == v
  {
    PowValues();
    assert Pow256(4) == U32;
    LoadStore(m, a, n, v);
  }
}
