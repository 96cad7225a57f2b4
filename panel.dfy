/**
 * The inventory panel: the list of items with its search and sheet filter, the
 * quantity stepper, and the check-out and check-in buttons of the selected
 * item. Rendering, timers, toasts and the confirmation dialog are not
 * modelled; the dialog's answer and the backend's reply are inputs.
 */
module InventoryPanel {
  import opened Wrappers
  import opened Text
  import opened Ui

  /** The search and sheet filter applied to one item. */
  predicate Keep(item: UiItem, searchQuery: string, currentFilter: string)
    reads item
  {
    (searchQuery == ""
     || Contains(Lower(item.nome), searchQuery)
     || Contains(Lower(item.codigosOriginais), searchQuery))
    && (currentFilter == "all" || item.abaOrigem == Some(currentFilter))
  }

  /** `allItems.filter(...)`: the items kept, in their order. */
  function Filtered(items: seq<UiItem>, searchQuery: string, currentFilter: string)
    : (r: seq<UiItem>)
    reads items
    ensures |r| <= |items|
    ensures forall i :: 0 <= i < |r| ==> r[i] in items && Keep(r[i], searchQuery, currentFilter)
    ensures forall i :: 0 <= i < |items| && Keep(items[i], searchQuery, currentFilter) ==> items[i] in r
  {
    if items == [] then []
    else
      Filtered(items[..|items| - 1], searchQuery, currentFilter)
      + (if Keep(items[|items| - 1], searchQuery, currentFilter) then [items[|items| - 1]] else [])
  }

  /** Filtering distributes over concatenation, so the kept items keep their
      relative order. */
  lemma {:induction false} FilteredAppend(a: seq<UiItem>, b: seq<UiItem>, q: string, f: string)
    ensures Filtered(a + b, q, f) == Filtered(a, q, f) + Filtered(b, q, f)
    decreases |b|
  {
    if b == [] {
      assert a + b == a;
    } else {
      var b' := b[..|b| - 1];
      assert (a + b)[..|a + b| - 1] == a + b';
      FilteredAppend(a, b', q, f);
    }
  }

  /** With the filter 'all' and an empty query every item is shown, in order. */
  lemma {:induction false} FilteredShowsAll(items: seq<UiItem>)
    ensures Filtered(items, "", "all") == items
  {
    if items != [] {
      FilteredShowsAll(items[..|items| - 1]);
    }
  }

  /** Filtering what is already filtered changes nothing. */
  lemma {:induction false} FilteredIdempotent(items: seq<UiItem>, q: string, f: string)
    ensures Filtered(Filtered(items, q, f), q, f) == Filtered(items, q, f)
  {
    if items != [] {
      var init := items[..|items| - 1];
      var last := items[|items| - 1];
      FilteredIdempotent(init, q, f);
      var tail := if Keep(last, q, f) then [last] else [];
      FilteredAppend(Filtered(init, q, f), tail, q, f);
      if Keep(last, q, f) {
        assert Filtered([last], q, f) == Filtered([], q, f) + [last] by {
          assert [last][..0] == [];
        }
      }
    }
  }

  /** The total shown for an item: `quantidade_total || quantidade_disponivel`. */
  function DisplayTotal(item: UiItem): (n: int)
    reads item
    ensures item.quantidadeTotal != 0 ==> n == item.quantidadeTotal
    ensures item.quantidadeTotal == 0 ==> n == item.quantidadeDisponivel
  {
    if item.quantidadeTotal != 0 then item.quantidadeTotal else item.quantidadeDisponivel
  }

  /** The codes kept for the detail view: at most the first three fields of the
      comma-split, none for an empty code string. */
  function KeptCodes(codigosOriginais: string): (r: seq<string>)
    ensures |r| <= 3
    ensures codigosOriginais == "" <==> r == []
  {
    if codigosOriginais == "" then []
    else
      var all := Split(codigosOriginais, ',');
      all[..if |all| < 3 then |all| else 3]
  }

  /** The "+n" after the two codes shown, as written: counted from the kept
      codes, so at most 1 however many codes the item has. */
  function HiddenCodesAsWritten(codigosOriginais: string): (n: nat)
    ensures n <= 1
  {
    var codigos := KeptCodes(codigosOriginais);
    if |codigos| > 2 then |codigos| - 2 else 0
  }

  /** The comma-split of a four-code string. */
  lemma SplitFourCodes()
    ensures Split("a,b,c,d", ',') == ["a", "b", "c", "d"]
  {
    assert "d"[1..] == "" && Split("", ',') == [""] && [""][1..] == [];
    assert Split("d", ',') == [['d'] + Split("", ',')[0]] + Split("", ',')[1..];
    assert ['d'] + "" == "d";
    assert Split("d", ',') == ["d"];
    assert ",d"[1..] == "d";
    assert Split(",d", ',') == ["", "d"];
    assert "c,d"[1..] == ",d";
    assert ["", "d"][1..] == ["c", "d"][1..] && ['c'] + "" == "c";
    assert Split("c,d", ',') == ["c", "d"];
    assert ",c,d"[1..] == "c,d";
    assert Split(",c,d", ',') == ["", "c", "d"];
    assert "b,c,d"[1..] == ",c,d";
    assert ["", "c", "d"][1..] == ["b", "c", "d"][1..] && ['b'] + "" == "b";
    assert Split("b,c,d", ',') == ["b", "c", "d"];
    assert ",b,c,d"[1..] == "b,c,d";
    assert Split(",b,c,d", ',') == ["", "b", "c", "d"];
    assert "a,b,c,d"[1..] == ",b,c,d";
    assert ["", "b", "c", "d"][1..] == ["a", "b", "c", "d"][1..] && ['a'] + "" == "a";
  }

  /** Four codes: two are shown, two are hidden, and the label says +1. */
  lemma HiddenCodesUndercount()
    ensures |Split("a,b,c,d", ',')| == 4
    ensures HiddenCodesAsWritten("a,b,c,d") == 1
  {
    SplitFourCodes();
  }

  /** The codes shown: the first two. */
  function ShownCodes(codigosOriginais: string): (r: seq<string>)
    ensures |r| <= 2
  {
    var codigos := KeptCodes(codigosOriginais);
    codigos[..if |codigos| < 2 then |codigos| else 2]
  }

  /** The "+n" counted from all the item's codes. */
  function HiddenCodes(codigosOriginais: string): nat {
    var all := if codigosOriginais == "" then [] else Split(codigosOriginais, ',');
    if |all| > 2 then |all| - 2 else 0
  }

  /** Corrected, the four-code item shows two codes and says +2. */
  lemma HiddenCodesFour()
    ensures ShownCodes("a,b,c,d") == ["a", "b"]
    ensures HiddenCodes("a,b,c,d") == 2
  {
    SplitFourCodes();
  }

  /** Corrected, the codes shown and the "+n" account for every code. */
  lemma ShownPlusHidden(codigosOriginais: string)
    ensures |ShownCodes(codigosOriginais)| + HiddenCodes(codigosOriginais)
         == if codigosOriginais == "" then 0 else |Split(codigosOriginais, ',')|
  {
  }

  /** The panel's state. */
  class Panel {
    var allItems: seq<UiItem>
    var filteredItems: seq<UiItem>
    var selectedItem: Option<UiItem>
    var currentFilter: string
    var searchQuery: string
    /** What the quantity input parses to; None when it does not parse. */
    var quantity: Option<int>

    constructor (items: seq<UiItem>)
      ensures allItems == items && filteredItems == items
      ensures selectedItem == None && currentFilter == "all" && searchQuery == ""
      ensures quantity == Some(1)
    {
      allItems := items;
      filteredItems := items;
      selectedItem := None;
      currentFilter := "all";
      searchQuery := "";
      quantity := Some(1);
    }

    /** `filterItems`. */
    method FilterItems()
      modifies this
      ensures filteredItems == Filtered(allItems, searchQuery, currentFilter)
      ensures allItems == old(allItems) && selectedItem == old(selectedItem)
      ensures searchQuery == old(searchQuery) && currentFilter == old(currentFilter)
      ensures quantity == old(quantity)
    {
      filteredItems := Filtered(allItems, searchQuery, currentFilter);
    }

    /** `handleSearch` followed by the debounced `filterItems`: the query is
        stored lower-cased. */
    method HandleSearch(query: string)
      modifies this
      ensures searchQuery == Lower(query)
      ensures filteredItems == Filtered(allItems, Lower(query), currentFilter)
      ensures allItems == old(allItems) && selectedItem == old(selectedItem)
      ensures currentFilter == old(currentFilter) && quantity == old(quantity)
    {
      searchQuery := Lower(query);
      FilterItems();
    }

    /** `handleFilter`. */
    method HandleFilter(filter: string)
      modifies this
      ensures currentFilter == filter
      ensures filteredItems == Filtered(allItems, searchQuery, filter)
      ensures allItems == old(allItems) && selectedItem == old(selectedItem)
      ensures searchQuery == old(searchQuery) && quantity == old(quantity)
    {
      currentFilter := filter;
      FilterItems();
    }

    /** `selectItem`: selects the item and renders its details, which
        re-creates the quantity input with the value 1. */
    method SelectItem(item: UiItem)
      modifies this
      ensures selectedItem == Some(item)
      ensures quantity == Some(1)
      ensures allItems == old(allItems) && filteredItems == old(filteredItems)
      ensures searchQuery == old(searchQuery) && currentFilter == old(currentFilter)
    {
      selectedItem := Some(item);
      quantity := Some(1);
    }

    /** `changeQuantity`: the parsed value (1 when it does not parse or is 0)
        plus delta, but never less than 1. */
    method ChangeQuantity(delta: int)
      modifies this
      ensures quantity == Some(Max(1, OrOne(old(quantity)) + delta))
      ensures quantity.value >= 1
      ensures allItems == old(allItems) && filteredItems == old(filteredItems)
      ensures selectedItem == old(selectedItem)
      ensures searchQuery == old(searchQuery) && currentFilter == old(currentFilter)
    {
      var current := OrOne(quantity);
      quantity := Some(Max(1, current + delta));
    }

    /** `handleRetirada`. In order: no selection, a blank name, or a quantity
        above the available count stops it before any request; a declined
        confirmation cancels it. On success the selected item's available count
        becomes the backend's new balance, its in-use count grows by the
        quantity, and the input goes back to 1. */
    method HandleRetirada(userNameInput: string, confirmed: bool, novoSaldo: Option<int>)
      returns (r: Outcome)
      modifies this, if selectedItem.Some? then {selectedItem.value} else {}
      ensures selectedItem == old(selectedItem) && allItems == old(allItems)
      ensures filteredItems == old(filteredItems)
      ensures searchQuery == old(searchQuery) && currentFilter == old(currentFilter)
      ensures old(selectedItem).Some? ==>
        var item := old(selectedItem).value;
        SameIdentity(item) && item.quantidadeTotal == old(item.quantidadeTotal)
        && item.estoqueMinimo == old(item.estoqueMinimo)
      ensures old(selectedItem).None? ==> r == Rejected(NoSelection)
      ensures old(selectedItem).Some? ==>
        var item := old(selectedItem).value;
        var nome := Strip(userNameInput);
        var q := old(quantity);
        (nome == "" ==> r == Rejected(NoName))
        && (nome != "" && q.Some? && q.value > old(item.quantidadeDisponivel) ==> r == Rejected(NotEnoughStock))
        && (nome != "" && !(q.Some? && q.value > old(item.quantidadeDisponivel)) ==>
              if !confirmed then r == Cancelled
              else r.Sent? && r.request == Request("retirada", item.id, q, nome)
                   && (r.accepted <==> novoSaldo.Some? && q.Some? && q.value > 0)
                   && (r.accepted ==>
                         item.quantidadeDisponivel == novoSaldo.value
                         && item.quantidadeEmUso == old(item.quantidadeEmUso) + q.value
                         && quantity == Some(1)))
      ensures !(r.Sent? && r.accepted) ==> quantity == old(quantity)
      ensures !(r.Sent? && r.accepted) && old(selectedItem).Some? ==>
        unchanged(old(selectedItem).value)
    {
      if selectedItem.None? {
        return Rejected(NoSelection);
      }
      var item := selectedItem.value;
      var userName := Strip(userNameInput);
      var q := quantity;
      if userName == "" {
        return Rejected(NoName);
      }
      if q.Some? && q.value > item.quantidadeDisponivel {
        return Rejected(NotEnoughStock);
      }
      if !confirmed {
        return Cancelled;
      }
      var request := Request("retirada", item.id, q, userName);
      if novoSaldo.None? || q.None? || q.value <= 0 {
        return Sent(request, false);
      }
      item.quantidadeDisponivel := novoSaldo.value;
      item.quantidadeEmUso := item.quantidadeEmUso + q.value;
      quantity := Some(1);
      return Sent(request, true);
    }

    /** `handleDevolucao`: only the selection and the name are checked, there is
        no in-use check on the client. On success the available count becomes
        the backend's new balance and the in-use count drops by the quantity,
        but not below 0. */
    method HandleDevolucao(userNameInput: string, confirmed: bool, novoSaldo: Option<int>)
      returns (r: Outcome)
      modifies this, if selectedItem.Some? then {selectedItem.value} else {}
      ensures selectedItem == old(selectedItem) && allItems == old(allItems)
      ensures filteredItems == old(filteredItems)
      ensures searchQuery == old(searchQuery) && currentFilter == old(currentFilter)
      ensures old(selectedItem).Some? ==>
        var item := old(selectedItem).value;
        SameIdentity(item) && item.quantidadeTotal == old(item.quantidadeTotal)
        && item.estoqueMinimo == old(item.estoqueMinimo)
      ensures r.Rejected? ==> r.guard != NotEnoughStock
      ensures old(selectedItem).None? ==> r == Rejected(NoSelection)
      ensures old(selectedItem).Some? ==>
        var item := old(selectedItem).value;
        var nome := Strip(userNameInput);
        var q := old(quantity);
        (nome == "" ==> r == Rejected(NoName))
        && (nome != "" ==>
              if !confirmed then r == Cancelled
              else r.Sent? && r.request == Request("devolucao", item.id, q, nome)
                   && (r.accepted <==> novoSaldo.Some? && q.Some? && q.value > 0)
                   && (r.accepted ==>
                         item.quantidadeDisponivel == novoSaldo.value
                         && item.quantidadeEmUso == Max(0, old(item.quantidadeEmUso) - q.value)
                         && item.quantidadeEmUso >= 0
                         && quantity == Some(1)))
      ensures !(r.Sent? && r.accepted) ==> quantity == old(quantity)
      ensures !(r.Sent? && r.accepted) && old(selectedItem).Some? ==>
        unchanged(old(selectedItem).value)
    {
      if selectedItem.None? {
        return Rejected(NoSelection);
      }
      var item := selectedItem.value;
      var userName := Strip(userNameInput);
      var q := quantity;
      if userName == "" {
        return Rejected(NoName);
      }
      if !confirmed {
        return Cancelled;
      }
      var request := Request("devolucao", item.id, q, userName);
      if novoSaldo.None? || q.None? || q.value <= 0 {
        return Sent(request, false);
      }
      item.quantidadeDisponivel := novoSaldo.value;
      item.quantidadeEmUso := Max(0, item.quantidadeEmUso - q.value);
      quantity := Some(1);
      return Sent(request, true);
    }
  }

  /** One step up and one step down brings a valid stepper value back. */
  lemma StepperUpDown(value: int)
    requires value >= 1
    ensures Max(1, OrOne(Some(Max(1, OrOne(Some(value)) + 1))) - 1) == value
  {
  }

  /** Stepping down from 1 stays at 1; an unparsable value steps as 1 does. */
  lemma StepperFloor(delta: int)
    requires delta <= 0
    ensures Max(1, OrOne(Some(1)) + delta) == 1
    ensures Max(1, OrOne(None) + delta) == Max(1, OrOne(Some(1)) + delta)
  {
  }
}
