/** Shared vocabulary: optional values, octets and slots of a ring. */
module Common {

  datatype Option<+T> = None | Some(value: T)

  type Byte = x: int | 0 <= x < 0x100

  /** Readable memory from a pointer on; what lies past the modelled octets reads
      as zero. */
  type Mem = seq<Byte>

  function At(mem: Mem, at: nat): Byte {
    if at < |mem| then mem[at] else 0
  }

  function Be16(mem: Mem, at: nat): (n: nat)
    ensures n < 0x1_0000
  {
    At(mem, at) * 0x100 + At(mem, at + 1)
  }

  function Be32(mem: Mem, at: nat): (n: nat)
    ensures n < 0x1_0000_0000
  {
    Be16(mem, at) * 0x1_0000 + Be16(mem, at + 2)
  }

  /** The slot of a ring of size `n` that position `p` falls into: `p` modulo `n`,
      by repeated subtraction. */
  function Slot(p: nat, n: nat): (k: nat)
    requires 1 <= n
    ensures k < n
    decreases p
  {
    if p < n then p else Slot(p - n, n)
  }

  /** Two positions less than `n` apart that share a slot are the same position. */
  lemma {:induction false} SlotsDistinct(a: nat, b: nat, n: nat)
    requires a <= b < a + n
    requires Slot(a, n) == Slot(b, n)
    ensures a == b
    decreases a
  {
    if n <= a {
      SlotsDistinct(a - n, b - n, n);
    }
  }

  /** Advancing an offset by `k` less than one turn. */
  lemma {:induction false} SlotSum(p: nat, k: nat, n: nat)
    requires k <= n && 1 <= n
    ensures Slot(p + k, n) == (Slot(p, n) + k) % n
    decreases p
  {
    if n <= p {
      SlotSum(p - n, k, n);
    } else if n <= p + k {
      assert Slot(p + k, n) == p + k - n;
      ModUnique(p + k, n, 1, p + k - n);
    } else {
      ModUnique(p + k, n, 0, p + k);
    }
  }

  lemma ModUnique(x: nat, n: nat, q: nat, r: nat)
    requires r < n && x == n * q + r
    ensures x % n == r
  {
    var k := x / n - q;
    assert x == n * (x / n) + x % n;
    assert n * k == r - x % n;
    Product(n, k);
  }

  lemma Product(n: nat, k: int)
    ensures k < 0 ==> n * k <= 0 - n
    ensures k > 0 ==> n * k >= n
  {
  }

  /** What stands at the front after `value` was copied to `start`. */
  lemma Spliced(was: seq<Byte>, now: seq<Byte>, start: nat, value: seq<Byte>)
    requires |was| == |now| && start + |value| <= |now|
    requires forall k :: 0 <= k < start ==> now[k] == was[k]
    requires forall k :: start <= k < start + |value| ==> now[k] == value[k - start]
    ensures now[..start + |value|] == was[..start] + value
  {
  }

  /** Octet strings laid end to end. */
  function Flat(entries: seq<seq<Byte>>): seq<Byte> {
    if entries == [] then [] else Flat(entries[..|entries| - 1]) + entries[|entries| - 1]
  }

  lemma FlatSnoc(entries: seq<seq<Byte>>, e: seq<Byte>)
    ensures Flat(entries + [e]) == Flat(entries) + e
  {
    assert (entries + [e])[..|entries|] == entries;
  }

  lemma Associates(a: seq<Byte>, b: seq<Byte>, c: seq<Byte>)
    ensures (a + b) + c == a + (b + c)
  {
  }

  lemma {:induction false} FlatAdds(a: seq<seq<Byte>>, b: seq<seq<Byte>>)
    ensures Flat(a + b) == Flat(a) + Flat(b)
    decreases |b|
  {
    if b == [] {
      assert a + b == a;
    } else {
      var front, e := b[..|b| - 1], b[|b| - 1];
      assert a + b == (a + front) + [e];
      FlatAdds(a, front);
      FlatSnoc(a + front, e);
      Associates(Flat(a), Flat(front), e);
    }
  }
}
