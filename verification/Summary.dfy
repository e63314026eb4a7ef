/** libsol/transaction_summary.c: the slots of the summary, and the two ways it is
    enumerated. */
module Summary {
  import opened Bytes

  const NUM_GENERAL_ITEMS := 11
  const MAX_TRANSACTION_SUMMARY_ITEMS := 15

  datatype ItemKind =
    | NoKind | Amount | TokenAmount | I64 | U64 | Pubkey | Hash | SizedString | Text | Timestamp
    | OffchainMessageApplicationDomain

  datatype Item = Item(kind: ItemKind, title: string) {
    predicate Used() { !kind.NoKind? }
  }

  const UNUSED := Item(NoKind, "")

  function IfUsed(item: Item): seq<Item> { if item.Used() then [item] else [] }

  /** The used ones of items, in order. */
  function UsedOf(items: seq<Item>): (r: seq<Item>)
    ensures |r| <= |items| && forall i :: 0 <= i < |r| ==> r[i].Used()
  {
    if |items| == 0 then []
    else
      var n := |items| - 1;
      UsedOf(items[..n]) + IfUsed(items[n])
  }

  function Kinds(items: seq<Item>): seq<ItemKind> {
    seq(|items|, i requires 0 <= i < |items| => items[i].kind)
  }

  lemma UsedSnoc(items: seq<Item>, k: nat)
    requires k < |items|
    ensures UsedOf(items[..k + 1]) == UsedOf(items[..k]) + IfUsed(items[k])
  {
    assert items[..k + 1][..k] == items[..k];
  }

  lemma UsedLast(items: seq<Item>, c: Item)
    ensures UsedOf(items + [c]) == UsedOf(items) + IfUsed(c)
  {
    assert (items + [c])[..|items|] == items;
  }

  lemma UsedConcatLast(a: seq<Item>, r: seq<Item>, c: Item)
    requires UsedOf(a + r) == UsedOf(a) + UsedOf(r)
    ensures UsedOf(a + (r + [c])) == UsedOf(a) + UsedOf(r + [c])
  {
    Assoc(a, r, [c]);
    UsedLast(a + r, c);
    UsedLast(r, c);
    Assoc(UsedOf(a), UsedOf(r), IfUsed(c));
  }

  lemma {:induction false} UsedConcat(a: seq<Item>, b: seq<Item>)
    ensures UsedOf(a + b) == UsedOf(a) + UsedOf(b)
  {
    if |b| == 0 {
      assert a + b == a;
    } else {
      var r, c := b[..|b| - 1], b[|b| - 1];
      UsedConcat(a, r);
      UsedConcatLast(a, r, c);
      assert b == r + [c];
    }
  }

  lemma {:induction false} FrontUsed(items: seq<Item>, n: nat)
    requires n <= |items|
    requires forall i :: 0 <= i < n ==> items[i].Used()
    requires forall i :: n <= i < |items| ==> !items[i].Used()
    ensures UsedOf(items) == items[..n]
  {
    if |items| > 0 {
      var m := |items| - 1;
      FrontUsed(items[..m], if n > m then m else n);
      assert items[..m][..if n > m then m else n] == items[..if n > m then m else n];
      assert n > m ==> items[..n] == items[..m] + [items[m]];
    }
  }

  class TransactionSummary {
    var primary: Item
    var feePayer: Item
    var nonceAccount: Item
    var nonceAuthority: Item
    const general: array<Item>

    /** The general slots are filled from the front. */
    ghost predicate Valid()
      reads this, general
    {
      general.Length == NUM_GENERAL_ITEMS
      && forall i, j :: 0 <= i < j < NUM_GENERAL_ITEMS && general[j].Used() ==> general[i].Used()
    }

    /** The general items, in the order they were added. */
    ghost function Generals(): seq<Item>
      reads this, general
    {
      UsedOf(general[..])
    }

    /** The items shown, in order. */
    ghost function Shown(): seq<Item>
      reads this, general
    {
      IfUsed(primary) + Generals() + IfUsed(nonceAccount) + IfUsed(nonceAuthority) + IfUsed(feePayer)
    }

    /** transaction_summary_reset */
    constructor ()
      ensures Valid() && fresh(general) && Generals() == []
      ensures primary == feePayer == nonceAccount == nonceAuthority == UNUSED
    {
      primary, feePayer, nonceAccount, nonceAuthority := UNUSED, UNUSED, UNUSED, UNUSED;
      general := new Item[NUM_GENERAL_ITEMS](_ => UNUSED);
      new;
      FrontUsed(general[..], 0);
    }

    /** transaction_summary_general_item: the first unused slot. */
    method GeneralItem() returns (slot: Option<nat>)
      requires Valid()
      ensures slot.Some? ==> slot.value < NUM_GENERAL_ITEMS && !general[slot.value].Used() && slot.value == |Generals()|
      ensures slot.None? ==> |Generals()| == NUM_GENERAL_ITEMS
    {
      for i := 0 to NUM_GENERAL_ITEMS
        invariant forall j :: 0 <= j < i ==> general[j].Used()
      {
        if !general[i].Used() {
          PrefixUsed(i);
          return Some(i);
        }
      }
      PrefixUsed(NUM_GENERAL_ITEMS);
      return None;
    }

    lemma PrefixUsed(n: nat)
      requires Valid() && n <= NUM_GENERAL_ITEMS && (n < NUM_GENERAL_ITEMS ==> !general[n].Used())
      requires forall j :: 0 <= j < n ==> general[j].Used()
      ensures Generals() == general[..n]
    {
      assert forall j :: n <= j < NUM_GENERAL_ITEMS ==> !general[j].Used();
      FrontUsed(general[..], n);
      assert general[..][..n] == general[..n];
    }

    /** A setter on the next general slot; false when there is none left. */
    method AddGeneral(item: Item) returns (ok: bool)
      requires Valid() && item.Used()
      modifies general
      ensures Valid()
      ensures ok <==> |old(Generals())| < NUM_GENERAL_ITEMS
      ensures Generals() == if ok then old(Generals()) + [item] else old(Generals())
    {
      var slot := GeneralItem();
      if slot.None? {
        return false;
      }
      var n := slot.value;
      FilledBefore(n);
      ghost var before := general[..n];
      general[n] := item;
      assert general[..n] == before && general[..n + 1] == before + [item];
      PrefixUsed(n + 1);
      ok := true;
    }

    lemma FilledBefore(n: nat)
      requires Valid() && n == |Generals()| && n < NUM_GENERAL_ITEMS && !general[n].Used()
      ensures (forall j :: 0 <= j < n ==> general[j].Used()) && Generals() == general[..n]
    {
      var m := 0;
      while m < NUM_GENERAL_ITEMS && general[m].Used()
        invariant m <= NUM_GENERAL_ITEMS && forall j :: 0 <= j < m ==> general[j].Used()
      {
        m := m + 1;
      }
      PrefixUsed(m);
    }

    /** transaction_summary_set_fee_payer_pubkey */
    method SetFeePayer(title: string) returns (rc: int)
      requires Valid()
      modifies this`feePayer
      ensures Valid() && (rc == 0 <==> !old(feePayer).Used())
      ensures feePayer == if rc == 0 then Item(Pubkey, title) else old(feePayer)
    {
      if feePayer.Used() {
        return 1;
      }
      feePayer := Item(Pubkey, title);
      rc := 0;
    }

    /** The loop over the general items, counting from 1. */
    method FindGeneral(itemIndex: nat) returns (item: Option<Item>, currentIndex: nat)
      requires Valid() && itemIndex > 0
      ensures item.Some? <==> itemIndex - 1 < |Generals()|
      ensures item.Some? ==> item.value == Generals()[itemIndex - 1]
      ensures item.None? ==> currentIndex == 1 + |Generals()|
    {
      currentIndex := 1;
      for i := 0 to NUM_GENERAL_ITEMS
        invariant currentIndex == 1 + |UsedOf(general[..i])| <= itemIndex
      {
        UsedSnoc(general[..], i);
        assert general[..][..i] == general[..i] && general[..][..i + 1] == general[..i + 1];
        if general[i].Used() {
          if currentIndex == itemIndex {
            UsedPrefix(i);
            return Some(general[i]), currentIndex;
          }
          currentIndex := currentIndex + 1;
        }
      }
      assert general[..NUM_GENERAL_ITEMS] == general[..];
      item := None;
    }

    /** transaction_summary_find_item: the item with an index, counting the primary item
        and the fee payer whether they are used or not. */
    method FindItem(itemIndex: nat) returns (item: Option<Item>)
      requires Valid()
      ensures var found := [primary] + Generals() + IfUsed(nonceAccount) + IfUsed(nonceAuthority) + [feePayer];
              item == if itemIndex < |found| then Some(found[itemIndex]) else None
    {
      var currentIndex := 0;
      if currentIndex == itemIndex {
        return Some(primary);
      }
      var general;
      general, currentIndex := FindGeneral(itemIndex);
      if general.Some? {
        return general;
      }
      if nonceAccount.Used() {
        if currentIndex == itemIndex {
          return Some(nonceAccount);
        }
        currentIndex := currentIndex + 1;
      }
      if nonceAuthority.Used() {
        if currentIndex == itemIndex {
          return Some(nonceAuthority);
        }
        currentIndex := currentIndex + 1;
      }
      if currentIndex == itemIndex {
        return Some(feePayer);
      }
      return None;
    }

    lemma UsedPrefix(i: nat)
      requires Valid() && i < NUM_GENERAL_ITEMS && general[i].Used()
      ensures |UsedOf(general[..i])| < |Generals()| && Generals()[|UsedOf(general[..i])|] == general[i]
    {
      UsedConcat(general[..i + 1], general[i + 1..]);
      assert general[..] == general[..i + 1] + general[i + 1..];
      UsedSnoc(general[..], i);
      assert general[..][..i] == general[..i] && general[..][..i + 1] == general[..i + 1];
    }

    /** SET_IF_USED */
    static method SetIfUsed(item: Item, kinds: array<ItemKind>, index: nat, ghost items: seq<Item>) returns (next: nat)
      requires index == |items| && index < kinds.Length && kinds[..index] == Kinds(items)
      modifies kinds
      ensures next <= kinds.Length && next <= index + 1 && kinds[..next] == Kinds(items + IfUsed(item))
      ensures next == |items + IfUsed(item)|
    {
      next := index;
      if item.Used() {
        ghost var before := kinds[..index];
        kinds[next] := item.kind;
        next := next + 1;
        assert kinds[..next] == before + [item.kind];
      } else {
        assert items + [] == items;
      }
    }

    /** transaction_summary_finalize */
    method Finalize(kinds: array<ItemKind>) returns (rc: int, length: nat)
      requires Valid() && kinds.Length == MAX_TRANSACTION_SUMMARY_ITEMS
      modifies kinds
      ensures rc == 0 <==> primary.Used()
      ensures rc == 0 ==> length == |Shown()| <= MAX_TRANSACTION_SUMMARY_ITEMS && kinds[..length] == Kinds(Shown())
    {
      if !primary.Used() {
        return 1, 0;
      }
      ghost var items := [];
      length := SetIfUsed(primary, kinds, 0, items);
      items := items + IfUsed(primary);
      for i := 0 to NUM_GENERAL_ITEMS
        invariant items == IfUsed(primary) + UsedOf(general[..i])
        invariant length == |items| <= i + 1 && kinds[..length] == Kinds(items)
      {
        length := SetIfUsed(general[i], kinds, length, items);
        assert general[..i + 1][..i] == general[..i];
        items := items + IfUsed(general[i]);
      }
      assert general[..NUM_GENERAL_ITEMS] == general[..];
      length := SetIfUsed(nonceAccount, kinds, length, items);
      items := items + IfUsed(nonceAccount);
      length := SetIfUsed(nonceAuthority, kinds, length, items);
      items := items + IfUsed(nonceAuthority);
      length := SetIfUsed(feePayer, kinds, length, items);
      rc := 0;
    }

    /** transaction_summary_display_item: an index that names no item, or an unused one,
        shows nothing; printing the item's value is not modelled. */
    method DisplayItem(itemIndex: nat) returns (rc: int, item: Item)
      requires Valid() && primary.Used()
      ensures rc == 0 <==> itemIndex < |Shown()|
      ensures rc == 0 ==> item == Shown()[itemIndex]
    {
      item := UNUSED;
      var found := FindItem(itemIndex);
      if found.None? {
        return 1, item;
      }
      item := found.value;
      rc := if item.Used() then 0 else 1;
    }
  }
}
