/** The registry's item custody table (mAitems): the guids of the items the
    auction house holds while they are listed. */
module Custody {
  import opened Common

  /** Takes custody of an item. The caller must not hand in an item the
      table already holds. */
  function AddItem(custody: set<ItemGuid>, g: ItemGuid): (r: set<ItemGuid>)
    requires g !in custody
    ensures g in r
    ensures r - {g} == custody
    ensures |r| == |custody| + 1
  {
    custody + {g}
  }

  datatype Removal = Removal(removed: bool, custody: set<ItemGuid>)

  /** Releases an item: reports false and changes nothing when the table
      does not hold it, otherwise drops exactly that guid. */
  function RemoveItem(custody: set<ItemGuid>, g: ItemGuid): (r: Removal)
    ensures !r.removed <==> g !in custody
    ensures !r.removed ==> r.custody == custody
    ensures r.removed ==> g !in r.custody && r.custody + {g} == custody
    ensures r.custody == custody - {g}
  {
    if g !in custody then Removal(false, custody)
    else Removal(true, custody - {g})
  }

  /** Releasing an item just taken in restores the table. */
  lemma AddThenRemove(custody: set<ItemGuid>, g: ItemGuid)
    requires g !in custody
    ensures RemoveItem(AddItem(custody, g), g) == Removal(true, custody)
  {
  }

  /** Releasing twice is releasing once; the second call reports false. */
  lemma RemoveTwice(custody: set<ItemGuid>, g: ItemGuid)
    ensures RemoveItem(RemoveItem(custody, g).custody, g) == Removal(false, custody - {g})
  {
  }
}
