/** `HexoSet`: a set of piece ids kept as the bits of one 64-bit word, bit
    `id` standing for the piece with that id. The core and the older game
    share this code unchanged. */
module HexoSets {
  import opened Hexos

  /** The word with only bit `id` set, `1u64 << id`. */
  function Bit(id: nat): bv64
    requires id < 64
  {
    1 << id
  }

  /** The ids of all pieces, those `Hexo::all_hexos` lists. */
  function AllIds(): (ids: set<nat>)
    ensures forall id: nat :: id in ids <==> id < HexoCount
  {
    var ids := set h | h in AllHexos() :: h.id;
    assert ids == {0, 1} by {
      assert AllHexos() == [Hexo(0), Hexo(1)];
      assert Hexo(0) in AllHexos() && Hexo(1) in AllHexos();
    }
    ids
  }

  /** The ids whose bit is set in a word. */
  ghost function Members(b: bv64): (ids: set<nat>)
    ensures forall id :: id in ids ==> id < HexoCount
  {
    set id: nat | id < HexoCount && b & Bit(id) != 0
  }

  class HexoSet {
    var bitset: bv64
    /** The ids the word stands for. */
    ghost var members: set<nat>

    /** The word has no bit beyond the piece table, and bit `id` is set
        exactly for the members. */
    ghost predicate Valid()
      reads this
    {
      bitset < Bit(HexoCount) && members == Members(bitset)
    }

    /** `HexoSet::empty`. */
    constructor Empty()
      ensures Valid() && members == {}
    {
      bitset := 0;
      members := {};
      new;
      assert forall id: nat :: id < HexoCount ==> bitset & Bit(id) == 0;
    }

    /** `HexoSet::all`: the low `N_HEXOS` bits, every piece of the table. */
    constructor All()
      ensures Valid() && members == AllIds()
    {
      bitset := Bit(HexoCount) - 1;
      members := AllIds();
      new;
      assert Bit(HexoCount) - 1 == 3;
      forall id: nat | id < HexoCount
        ensures bitset & Bit(id) != 0 && id in members
      {
        assert id == 0 || id == 1;
      }
    }

    /** `HexoSet::is_empty`: the word is zero exactly when no piece is in
        the set. */
    function IsEmpty(): (r: bool)
      requires Valid()
      reads this
      ensures r <==> members == {}
    {
      if bitset == 0 then
        assert forall id: nat :: id < HexoCount ==> bitset & Bit(id) == 0;
        true
      else
        assert bitset & Bit(0) != 0 || bitset & Bit(1) != 0;
        assert 0 in members || 1 in members;
        false
    }

    /** `HexoSet::has`: tests one bit. */
    function Has(h: Hexo): (r: bool)
      requires Valid() && ValidHexo(h)
      reads this
      ensures r <==> h.id in members
    {
      bitset & Bit(h.id) != 0
    }

    /** `HexoSet::add`: sets one bit. */
    method Add(h: Hexo)
      requires Valid() && ValidHexo(h)
      modifies this
      ensures Valid() && members == old(members) + {h.id}
    {
      SetBit(bitset, h.id);
      bitset := bitset | Bit(h.id);
      members := members + {h.id};
    }

    /** `HexoSet::remove`: clears one bit. */
    method Remove(h: Hexo)
      requires Valid() && ValidHexo(h)
      modifies this
      ensures Valid() && members == old(members) - {h.id}
    {
      ClearBit(bitset, h.id);
      bitset := bitset & !Bit(h.id);
      members := members - {h.id};
    }

    /** `HexoSet::iter`: the members, by increasing id. */
    method Iter() returns (hexos: seq<Hexo>)
      requires Valid()
      ensures forall h :: h in hexos <==> ValidHexo(h) && h.id in members
      ensures forall i, j :: 0 <= i < j < |hexos| ==> hexos[i].id < hexos[j].id
    {
      hexos := [];
      for id := 0 to HexoCount
        invariant forall h :: h in hexos <==> h.id < id && h.id in members
        invariant forall i, j :: 0 <= i < j < |hexos| ==> hexos[i].id < hexos[j].id
        invariant forall i :: 0 <= i < |hexos| ==> hexos[i].id < id
      {
        if Has(Hexo(id)) {
          hexos := hexos + [Hexo(id)];
        }
      }
    }
  }

  /** Setting bit `k` adds `k` to the members and keeps the word below the
      bits of the table. */
  lemma SetBit(b: bv64, k: nat)
    requires k < HexoCount && b < Bit(HexoCount)
    ensures b | Bit(k) < Bit(HexoCount)
    ensures Members(b | Bit(k)) == Members(b) + {k}
  {
    assert Bit(HexoCount) == 4;
    forall id: nat | id < HexoCount
      ensures (b | Bit(k)) & Bit(id) != 0 <==> b & Bit(id) != 0 || id == k
    {
      assert id == 0 || id == 1;
      assert k == 0 || k == 1;
    }
  }

  /** Clearing bit `k` removes `k` from the members. */
  lemma ClearBit(b: bv64, k: nat)
    requires k < HexoCount && b < Bit(HexoCount)
    ensures b & !Bit(k) < Bit(HexoCount)
    ensures Members(b & !Bit(k)) == Members(b) - {k}
  {
    assert Bit(HexoCount) == 4;
    forall id: nat | id < HexoCount
      ensures (b & !Bit(k)) & Bit(id) != 0 <==> b & Bit(id) != 0 && id != k
    {
      assert id == 0 || id == 1;
      assert k == 0 || k == 1;
    }
  }
}
