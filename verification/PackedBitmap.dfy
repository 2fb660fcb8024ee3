/** The packed bitmap of allocator/pool_memory.c: eight blocks a byte, block i in
    bit i % 8 of byte i / 8.  The module shows that the three byte expressions of
    the allocator (test, set, clear) act on a plain sequence of booleans. */
module PackedBitmap {

  /** 1 << k, as a table: the allocator only shifts by 0..7. */
  function Mask(k: nat): bv8
    requires k < 8
  {
    if k == 0 then 0x01 else if k == 1 then 0x02 else if k == 2 then 0x04 else if k == 3 then 0x08
    else if k == 4 then 0x10 else if k == 5 then 0x20 else if k == 6 then 0x40 else 0x80
  }

  predicate TestBit(b: bv8, k: nat)
    requires k < 8
  {
    b & Mask(k) != 0
  }

  function SetBit(b: bv8, k: nat): bv8
    requires k < 8
  {
    b | Mask(k)
  }

  function ClearBit(b: bv8, k: nat): bv8
    requires k < 8
  {
    b & !Mask(k)
  }

  lemma SetBitTest(b: bv8, k: nat, j: nat)
    requires k < 8 && j < 8
    ensures TestBit(SetBit(b, k), j) == (j == k || TestBit(b, j))
  {
    MaskShape(k);
    MaskShape(j);
    MasksDisjoint(k, j);
    var mk, mj := Mask(k), Mask(j);
    assert (b | mk) & mj == (b & mj) | (mk & mj);
  }

  lemma ClearBitTest(b: bv8, k: nat, j: nat)
    requires k < 8 && j < 8
    ensures TestBit(ClearBit(b, k), j) == (j != k && TestBit(b, j))
  {
    MasksDisjoint(k, j);
    var mk, mj := Mask(k), Mask(j);
    if j == k {
      assert (b & !mk) & mk == 0;
    } else {
      ClearOther(b, mk, mj);
    }
  }

  lemma ClearOther(b: bv8, m: bv8, n: bv8)
    requires m & n == 0
    ensures (b & !m) & n == b & n
  {
  }

  lemma MaskShape(k: nat)
    requires k < 8
    ensures Mask(k) != 0
  {
  }

  lemma MasksDisjoint(k: nat, j: nat)
    requires k < 8 && j < 8
    ensures Mask(k) & Mask(j) == (if k == j then Mask(k) else 0)
  {
  }

  /** A byte is determined by its eight bits. */
  lemma ByteFromBits(a: bv8, b: bv8)
    requires forall k :: 0 <= k < 8 ==> TestBit(a, k) == TestBit(b, k)
    ensures a == b
  {
    assert TestBit(a, 0) == TestBit(b, 0);
    assert TestBit(a, 1) == TestBit(b, 1);
    assert TestBit(a, 2) == TestBit(b, 2);
    assert TestBit(a, 3) == TestBit(b, 3);
    assert TestBit(a, 4) == TestBit(b, 4);
    assert TestBit(a, 5) == TestBit(b, 5);
    assert TestBit(a, 6) == TestBit(b, 6);
    assert TestBit(a, 7) == TestBit(b, 7);
  }

  /** Block i is bit i % 8 of byte i / 8. */
  predicate BitAt(bytes: seq<bv8>, i: nat)
    requires i < 8 * |bytes|
  {
    TestBit(bytes[i / 8], i % 8)
  }

  /** The packed bytes stand for the boolean map `bits`. */
  ghost predicate Packs(bytes: seq<bv8>, bits: seq<bool>) {
    && |bits| == 8 * |bytes|
    && forall i {:trigger BitAt(bytes, i)} :: 0 <= i < |bits| ==> bits[i] == BitAt(bytes, i)
  }

  /** Setting or clearing one bit of one byte updates exactly one boolean. */
  lemma UpdateBit(bytes: seq<bv8>, bits: seq<bool>, i: nat, v: bool)
    requires Packs(bytes, bits) && i < |bits|
    ensures Packs(bytes[i / 8 := if v then SetBit(bytes[i / 8], i % 8) else ClearBit(bytes[i / 8], i % 8)],
      bits[i := v])
  {
    var b := if v then SetBit(bytes[i / 8], i % 8) else ClearBit(bytes[i / 8], i % 8);
    var after := bytes[i / 8 := b];
    forall j | 0 <= j < |bits|
      ensures bits[i := v][j] == BitAt(after, j)
    {
      assert bits[j] == BitAt(bytes, j);
      if j / 8 == i / 8 {
        SetBitTest(bytes[i / 8], i % 8, j % 8);
        ClearBitTest(bytes[i / 8], i % 8, j % 8);
      }
    }
  }

  lemma PacksZero(bytes: seq<bv8>)
    requires forall j :: 0 <= j < |bytes| ==> bytes[j] == 0
    ensures Packs(bytes, seq(8 * |bytes|, _ => false))
  {
    forall i | 0 <= i < 8 * |bytes|
      ensures !BitAt(bytes, i)
    {
      assert bytes[i / 8] == 0;
    }
  }

  /** The packing loses nothing: the boolean map determines the bytes. */
  lemma PackingIsUnique(a: seq<bv8>, b: seq<bv8>, bits: seq<bool>)
    requires Packs(a, bits) && Packs(b, bits)
    ensures a == b
  {
    forall j | 0 <= j < |a|
      ensures a[j] == b[j]
    {
      forall k | 0 <= k < 8
        ensures TestBit(a[j], k) == TestBit(b[j], k)
      {
        assert (8 * j + k) / 8 == j && (8 * j + k) % 8 == k;
        assert BitAt(a, 8 * j + k) == bits[8 * j + k] == BitAt(b, 8 * j + k);
      }
      ByteFromBits(a[j], b[j]);
    }
  }
}
