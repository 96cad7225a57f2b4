/**
 * What the two frontend components share: the item object the API returns
 * (the components update it in place after a transaction), the quantity
 * input, and the transaction request they send.
 *
 * JavaScript's `||` treats null, undefined and 0 alike, so an absent count is
 * modelled as 0 and an absent code string as "".
 */
module Ui {
  import opened Wrappers

  /** An item as the frontend holds it. */
  class UiItem {
    var id: int
    var nome: string
    var codigosOriginais: string
    var abaOrigem: Option<string>
    var quantidadeTotal: int
    var quantidadeDisponivel: int
    var quantidadeEmUso: int
    var estoqueMinimo: int

    constructor (id: int, nome: string, codigosOriginais: string, abaOrigem: Option<string>,
                 quantidadeTotal: int, quantidadeDisponivel: int, quantidadeEmUso: int,
                 estoqueMinimo: int)
      ensures this.id == id && this.nome == nome && this.codigosOriginais == codigosOriginais
      ensures this.abaOrigem == abaOrigem && this.quantidadeTotal == quantidadeTotal
      ensures this.quantidadeDisponivel == quantidadeDisponivel
      ensures this.quantidadeEmUso == quantidadeEmUso && this.estoqueMinimo == estoqueMinimo
    {
      this.id := id;
      this.nome := nome;
      this.codigosOriginais := codigosOriginais;
      this.abaOrigem := abaOrigem;
      this.quantidadeTotal := quantidadeTotal;
      this.quantidadeDisponivel := quantidadeDisponivel;
      this.quantidadeEmUso := quantidadeEmUso;
      this.estoqueMinimo := estoqueMinimo;
    }
  }

  /** `parseInt(value) || 1`: an unparsable value (None) and 0 both read as 1. */
  function OrOne(value: Option<int>): (n: int)
    ensures n != 0
    ensures value.Some? && value.value != 0 ==> n == value.value
    ensures value.None? || value.value == 0 ==> n == 1
  {
    if value.Some? && value.value != 0 then value.value else 1
  }

  /** The fields that say which item this is: a transaction never changes
      them. */
  twostate predicate SameIdentity(item: UiItem)
    reads item
  {
    item.id == old(item.id) && item.nome == old(item.nome)
    && item.codigosOriginais == old(item.codigosOriginais) && item.abaOrigem == old(item.abaOrigem)
  }

  /** `Math.max`. */
  function Max(a: int, b: int): int {
    if a < b then b else a
  }

  /** The body of `createTransaction`: the quantity is the parsed input, None
      when it did not parse. Such a quantity is serialised as `null`. The
      backend rejects it with 422, as it rejects a quantity that is not
      positive. The client then throws and takes its error branch. */
  datatype Request = Request(tipo: string, itemId: int, quantidade: Option<int>, nomePessoa: string)

  /** The client-side checks that can stop a transaction before any request. */
  datatype Guard = NoSelection | NoName | NotEnoughStock

  /** How a click on a transaction button ends: stopped by a check, cancelled at
      the confirmation, or sent (and whether the backend accepted it). */
  datatype Outcome = Rejected(guard: Guard) | Cancelled | Sent(request: Request, accepted: bool)
}
