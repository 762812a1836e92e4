/** The end of a distributed search (search/neighbors.c): the node's own files are dropped from the results. */
module OwnResults {
  import opened Addresses
  import opened Registries

  /** The results of other owners, in order. */
  function Foreign(items: seq<FileMeta>, self: Addr): (kept: seq<FileMeta>)
    ensures |kept| <= |items|
  {
    if items == [] then []
    else
      var last := items[|items| - 1];
      Foreign(items[..|items| - 1], self) + (if last.owner == self then [] else [last])
  }

  lemma CountSnoc(s: seq<FileMeta>, last: FileMeta, f: FileMeta)
    ensures multiset(s + [last])[f] == multiset(s)[f] + (if f == last then 1 else 0)
  {
    assert multiset(s + [last]) == multiset(s) + multiset{last};
  }

  /** The results kept and the node's own make up all of them: each result is kept exactly as often as it came, or not
      at all if it is the node's own. */
  lemma {:induction false} ForeignKeepsOthers(items: seq<FileMeta>, self: Addr, f: FileMeta)
    ensures multiset(Foreign(items, self))[f] == if f.owner == self then 0 else multiset(items)[f]
  {
    if items != [] {
      var init, last := items[..|items| - 1], items[|items| - 1];
      ForeignKeepsOthers(init, self, f);
      assert items == init + [last];
      CountBoth(init, Foreign(init, self), last, self, f);
    }
  }

  lemma {:induction false} CountBoth(init: seq<FileMeta>, kept: seq<FileMeta>, last: FileMeta, self: Addr, f: FileMeta)
    requires multiset(kept)[f] == if f.owner == self then 0 else multiset(init)[f]
    ensures multiset(kept + (if last.owner == self then [] else [last]))[f]
         == if f.owner == self then 0 else multiset(init + [last])[f]
  {
    CountSnoc(init, last, f);
    CountSnoc(kept, last, f);
    assert kept + [] == kept;
  }

  /** The in-place compaction: a write index that never passes the read index. */
  method DropOwn(items: array<FileMeta>, count: nat, self: Addr) returns (kept: nat)
    requires count <= items.Length
    modifies items
    ensures kept <= count && items[..kept] == Foreign(old(items[..count]), self)
    ensures items[count..] == old(items[count..])
  {
    hide Foreign;
    ghost var all := items[..];
    kept := 0;
    var i := 0;
    NoneForeign(all, self);
    while i < count
      invariant kept <= i <= count && forall k :: i <= k < items.Length ==> items[k] == all[k]
      invariant items[..kept] == Foreign(all[..i], self)
    {
      ForeignSnoc(all, i, self);
      if items[i].owner == self {
        i := i + 1;
        continue;
      }
      if kept != i {
        items[kept] := items[i];
      }
      kept := kept + 1;
      i := i + 1;
    }
    assert all[..count] == old(items[..count]);
  }

  lemma NoneForeign(items: seq<FileMeta>, self: Addr)
    ensures Foreign(items[..0], self) == []
  {
  }

  lemma ForeignSnoc(items: seq<FileMeta>, i: nat, self: Addr)
    requires i < |items|
    ensures Foreign(items[..i + 1], self) == Foreign(items[..i], self) + (if items[i].owner == self then [] else [items[i]])
  {
    assert items[..i + 1][..i] == items[..i];
  }
}
