/**
 * The item card: the selected item's summary with its low-stock flag, the
 * quantity stepper, and the check-out and check-in buttons. Rendering, toasts
 * and the confirmation dialog are not modelled; the dialog's answer and the
 * backend's reply are inputs.
 */
module ItemCard {
  import opened Wrappers
  import opened Text
  import opened Ui

  /** The low-stock warning: the available count is at or below the minimum. */
  predicate IsLowStock(item: UiItem)
    reads item
  {
    item.quantidadeDisponivel <= item.estoqueMinimo
  }

  /** The card's state. */
  class Card {
    var selectedItem: Option<UiItem>
    /** What the quantity input parses to; None when it does not parse. */
    var quantity: Option<int>
    /** Whether the low-stock warning is shown. */
    var lowStock: bool

    constructor ()
      ensures selectedItem == None && quantity == Some(1) && !lowStock
    {
      selectedItem := None;
      quantity := Some(1);
      lowStock := false;
    }

    /** `display`: selects the item, flags low stock and resets the quantity
        to 1. */
    method Display(item: UiItem)
      modifies this
      ensures selectedItem == Some(item)
      ensures lowStock <==> IsLowStock(item)
      ensures quantity == Some(1)
    {
      selectedItem := Some(item);
      lowStock := item.quantidadeDisponivel <= item.estoqueMinimo;
      quantity := Some(1);
    }

    /** `increaseQuantity`: one more than the parsed value (1 when it does not
        parse or is 0), then validated. */
    method IncreaseQuantity()
      modifies this
      ensures quantity == Validated(Some(OrOne(old(quantity)) + 1))
      ensures selectedItem == old(selectedItem) && lowStock == old(lowStock)
    {
      var current := OrOne(quantity);
      quantity := Some(current + 1);
      ValidateQuantity();
    }

    /** `decreaseQuantity`: one less, only when the parsed value is above 1. */
    method DecreaseQuantity()
      modifies this
      ensures OrOne(old(quantity)) > 1 ==> quantity == Some(OrOne(old(quantity)) - 1)
      ensures OrOne(old(quantity)) <= 1 ==> quantity == old(quantity)
      ensures quantity != old(quantity) ==> quantity.Some? && quantity.value >= 1
      ensures selectedItem == old(selectedItem) && lowStock == old(lowStock)
    {
      var current := OrOne(quantity);
      if current > 1 {
        quantity := Some(current - 1);
      }
    }

    /** `validateQuantity`. */
    method ValidateQuantity()
      modifies this
      ensures quantity == Validated(old(quantity))
      ensures selectedItem == old(selectedItem) && lowStock == old(lowStock)
    {
      var value := OrOne(quantity);
      if value < 1 {
        quantity := Some(1);
      }
    }

    /** `handleRetirada`. In order: a blank name, no selection, or a quantity
        above the available count stops it before any request; a declined
        confirmation cancels it. On success the item's available count becomes
        the backend's new balance and the card is displayed again, which resets
        the quantity to 1. */
    method HandleRetirada(userNameInput: string, confirmed: bool, novoSaldo: Option<int>)
      returns (r: Outcome)
      modifies this, if selectedItem.Some? then {selectedItem.value} else {}
      ensures selectedItem == old(selectedItem)
      ensures Strip(userNameInput) == "" ==> r == Rejected(NoName)
      ensures Strip(userNameInput) != "" && old(selectedItem).None? ==> r == Rejected(NoSelection)
      ensures Strip(userNameInput) != "" && old(selectedItem).Some? ==>
        var item := old(selectedItem).value;
        var q := old(quantity);
        (q.Some? && q.value > old(item.quantidadeDisponivel) ==> r == Rejected(NotEnoughStock))
        && (!(q.Some? && q.value > old(item.quantidadeDisponivel)) ==>
              if !confirmed then r == Cancelled
              else r.Sent? && r.request == Request("retirada", item.id, q, Strip(userNameInput))
                   && (r.accepted <==> novoSaldo.Some? && q.Some? && q.value > 0))
      ensures r.Sent? && r.accepted ==> AfterSuccess(old(selectedItem).value, novoSaldo.value)
      ensures !(r.Sent? && r.accepted) ==> quantity == old(quantity) && lowStock == old(lowStock)
      ensures !(r.Sent? && r.accepted) && old(selectedItem).Some? ==>
        unchanged(old(selectedItem).value)
    {
      var userName := Strip(userNameInput);
      var q := quantity;
      if userName == "" {
        return Rejected(NoName);
      }
      if selectedItem.None? {
        return Rejected(NoSelection);
      }
      var item := selectedItem.value;
      if q.Some? && q.value > item.quantidadeDisponivel {
        return Rejected(NotEnoughStock);
      }
      if !confirmed {
        return Cancelled;
      }
      var request := Request("retirada", item.id, q, userName);
      if novoSaldo.None? || q.None? || q.value <= 0 {
        return Sent(request, false);
      }
      item.quantidadeDisponivel := novoSaldo.value;
      Display(item);
      quantity := Some(1);
      return Sent(request, true);
    }

    /** `handleDevolucao`: only the name and the selection are checked. On
        success only the available count is updated; the card does not touch
        the in-use count. */
    method HandleDevolucao(userNameInput: string, confirmed: bool, novoSaldo: Option<int>)
      returns (r: Outcome)
      modifies this, if selectedItem.Some? then {selectedItem.value} else {}
      ensures selectedItem == old(selectedItem)
      ensures r.Rejected? ==> r.guard != NotEnoughStock
      ensures Strip(userNameInput) == "" ==> r == Rejected(NoName)
      ensures Strip(userNameInput) != "" && old(selectedItem).None? ==> r == Rejected(NoSelection)
      ensures Strip(userNameInput) != "" && old(selectedItem).Some? ==>
        var item := old(selectedItem).value;
        var q := old(quantity);
        if !confirmed then r == Cancelled
        else r.Sent? && r.request == Request("devolucao", item.id, q, Strip(userNameInput))
             && (r.accepted <==> novoSaldo.Some? && q.Some? && q.value > 0)
      ensures r.Sent? && r.accepted ==> AfterSuccess(old(selectedItem).value, novoSaldo.value)
      ensures !(r.Sent? && r.accepted) ==> quantity == old(quantity) && lowStock == old(lowStock)
      ensures !(r.Sent? && r.accepted) && old(selectedItem).Some? ==>
        unchanged(old(selectedItem).value)
    {
      var userName := Strip(userNameInput);
      var q := quantity;
      if userName == "" {
        return Rejected(NoName);
      }
      if selectedItem.None? {
        return Rejected(NoSelection);
      }
      var item := selectedItem.value;
      if !confirmed {
        return Cancelled;
      }
      var request := Request("devolucao", item.id, q, userName);
      if novoSaldo.None? || q.None? || q.value <= 0 {
        return Sent(request, false);
      }
      item.quantidadeDisponivel := novoSaldo.value;
      Display(item);
      quantity := Some(1);
      return Sent(request, true);
    }

    /** The state after a successful transaction: the item's available count is
        the new balance, its other fields (identity, in-use count, total and
        minimum) are as before, the low-stock flag is recomputed and the
        quantity is 1. */
    twostate predicate AfterSuccess(item: UiItem, novoSaldo: int)
      reads this, item
    {
      item.quantidadeDisponivel == novoSaldo
      && SameIdentity(item)
      && item.quantidadeEmUso == old(item.quantidadeEmUso)
      && item.quantidadeTotal == old(item.quantidadeTotal)
      && item.estoqueMinimo == old(item.estoqueMinimo)
      && (lowStock <==> novoSaldo <= item.estoqueMinimo)
      && quantity == Some(1)
    }
  }

  /** `validateQuantity` on a value: a value that reads below 1 becomes 1;
      anything else, including 0 and an unparsable value, is left as it is. */
  function Validated(value: Option<int>): (r: Option<int>)
    ensures OrOne(value) < 1 ==> r == Some(1)
    ensures OrOne(value) >= 1 ==> r == value
  {
    if OrOne(value) < 1 then Some(1) else value
  }

  /** Negative values are reset to 1; 0 and an unparsable value survive,
      because `|| 1` reads them as 1 before the check. */
  lemma ValidatedCases(value: Option<int>)
    ensures value.Some? && value.value < 0 ==> Validated(value) == Some(1)
    ensures value == Some(0) ==> Validated(value) == Some(0)
    ensures value.None? ==> Validated(value) == None
    ensures Validated(value).Some? ==> Validated(value).value >= 0
  {
  }

  /** Validating twice is the same as validating once. */
  lemma ValidatedIdempotent(value: Option<int>)
    ensures Validated(Validated(value)) == Validated(value)
  {
  }

  /** Stepping up from -1 leaves 0 in the input: -1 + 1 is 0, which the check
      reads as 1 and keeps. From any value at least 1 the step is exactly +1. */
  lemma IncreaseCases(value: int)
    ensures Validated(Some(OrOne(Some(-1)) + 1)) == Some(0)
    ensures value >= 1 ==> Validated(Some(OrOne(Some(value)) + 1)) == Some(value + 1)
  {
  }
}
