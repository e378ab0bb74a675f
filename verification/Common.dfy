/** Fixed-width numbers and small helpers shared by the models. */
module Common {
  datatype Option<+T> = None | Some(value: T)

  type u8 = x: int | 0 <= x < 0x100
  type u16 = x: int | 0 <= x < 0x1_0000
  type u32 = x: int | 0 <= x < 0x1_0000_0000
  type u64 = x: int | 0 <= x < 0x1_0000_0000_0000_0000

  const U32: nat := 0x1_0000_0000
  const U64: nat := 0x1_0000_0000_0000_0000

  function Min(a: nat, b: nat): (m: nat)
    ensures m <= a && m <= b && (m == a || m == b)
  {
    if a < b then a else b
  }

  function Max(a: int, b: int): (m: int)
    ensures m >= a && m >= b && (m == a || m == b)
  {
    if a < b then b else a
  }

  /** 1 for a condition that holds, for counting. */
  function One(b: bool): (n: nat)
    ensures n <= 1 && (n > 0 <==> b)
  {
    if b then 1 else 0
  }

  lemma Member<T>(s: set<T>) returns (x: T)
    requires s != {}
    ensures x in s
  {
    x :| x in s;
  }

  lemma KeyOf<K, V>(m: map<K, V>, v: V) returns (k: K)
    requires v in m.Values
    ensures k in m && m[k] == v
  {
    k :| k in m && m[k] == v;
  }

  ghost predicate Injective<K, V>(m: map<K, V>) {
    forall h, k :: h in m && k in m && m[h] == m[k] ==> h == k
  }

  lemma {:induction false} InjectiveSize<K, V>(m: map<K, V>)
    requires Injective(m)
    ensures |m.Values| == |m|
    decreases |m|
  {
    if m == map[] {
      assert m.Values == {};
    } else {
      var h :| h in m;
      var rest := m - {h};
      InjectiveSize(rest);
      assert m.Keys == rest.Keys + {h};
      assert m.Values == rest.Values + {m[h]};
    }
  }
}
