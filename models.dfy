/**
 * The backend's record types: items as the store keeps them, transaction
 * records, the transaction request with its field constraints, and the
 * transaction response with its default.
 */
module Models {
  import opened Wrappers
  import Validators

  /** An item as its callers read and write it: the reconciliation pass and the
      transaction route use every one of these columns. */
  datatype ItemData = ItemData(
    nome: string,
    categoria: Option<string>,
    localizacao: Option<string>,
    quantidadeTotal: int,
    quantidadeDisponivel: int,
    quantidadeEmUso: int,
    estoqueMinimo: int,
    codigosOriginais: string,
    abaOrigem: string)

  /** A stored item: its row id and its columns. */
  datatype StoredItem = StoredItem(id: int, data: ItemData)

  /** The ledger's central invariant for one item. */
  predicate Balanced(d: ItemData) {
    d.quantidadeDisponivel + d.quantidadeEmUso == d.quantidadeTotal
    && d.quantidadeDisponivel >= 0 && d.quantidadeEmUso >= 0
  }

  /** The `Item` API model; its optional fields have the defaults of the source. */
  datatype Item = Item(
    id: Option<int>,
    nome: string,
    categoria: Option<string>,
    quantidadeDisponivel: int,
    estoqueMinimo: int,
    localizacao: Option<string>)

  /** Building an `Item`: the optional fields take the defaults of item.py,
      None for `id`, `categoria` and `localizacao` and 0 for `estoque_minimo`,
      as the parameter defaults. */
  function NewItem(nome: string, quantidadeDisponivel: int, id: Option<int> := None,
                   categoria: Option<string> := None, estoqueMinimo: int := 0,
                   localizacao: Option<string> := None): (r: Item)
    ensures r.nome == nome && r.quantidadeDisponivel == quantidadeDisponivel
  {
    Item(id, nome, categoria, quantidadeDisponivel, estoqueMinimo, localizacao)
  }

  /** A transaction record. `id` is None until the store assigns one. The
      timestamp is not modelled. */
  datatype Transaction = Transaction(
    id: Option<int>,
    tipo: string,
    itemId: int,
    itemNome: Option<string>,
    quantidade: int,
    nomePessoa: string,
    saldoApos: int)

  /** A transaction request that passed validation. */
  datatype TransactionCreate = TransactionCreate(
    tipo: string, itemId: int, quantidade: int, nomePessoa: string)

  /** The request fields whose constraint failed, in declaration order. */
  datatype FieldError = Tipo | Quantidade | NomePessoa

  /** Request validation: `tipo` must match `^(retirada|devolucao)$`,
      `quantidade` must be greater than 0 and `nome_pessoa` must have at least one
      character (a blank name passes). Every failing field is reported. */
  function ValidateTransactionCreate(tipo: string, itemId: int, quantidade: int, nomePessoa: string)
    : (r: Result<TransactionCreate, seq<FieldError>>)
    ensures r.Ok? <==> tipo in {"retirada", "devolucao"} && quantidade > 0 && |nomePessoa| >= 1
    ensures r.Ok? ==> r.value == TransactionCreate(tipo, itemId, quantidade, nomePessoa)
    ensures r.Err? ==> (Tipo in r.error <==> tipo !in {"retirada", "devolucao"})
    ensures r.Err? ==> (Quantidade in r.error <==> quantidade <= 0)
    ensures r.Err? ==> (NomePessoa in r.error <==> nomePessoa == "")
  {
    var errors :=
      (if tipo == "retirada" || tipo == "devolucao" then [] else [Tipo])
      + (if quantidade > 0 then [] else [Quantidade])
      + (if |nomePessoa| >= 1 then [] else [NomePessoa]);
    if errors == [] then Ok(TransactionCreate(tipo, itemId, quantidade, nomePessoa))
    else Err(errors)
  }

  /** The request model and the utility validators agree: a request is accepted
      exactly when its type and quantity pass the validators and the name is not
      empty. */
  lemma RequestMatchesValidators(tipo: string, itemId: int, quantidade: int, nomePessoa: string)
    ensures ValidateTransactionCreate(tipo, itemId, quantidade, nomePessoa).Ok?
        <==> Validators.ValidTransactionType(tipo) && Validators.ValidQuantity(quantidade)
             && nomePessoa != ""
  {
  }

  /** The transaction response. */
  datatype TransactionResponse = TransactionResponse(
    success: bool, message: string, transactionId: int, novoSaldo: int, slackNotified: bool)

  /** Building a response: `slack_notified` defaults to false, as the
      parameter default. */
  function NewTransactionResponse(success: bool, message: string, transactionId: int,
                                  novoSaldo: int, slackNotified: bool := false)
    : (r: TransactionResponse)
    ensures r.transactionId == transactionId && r.novoSaldo == novoSaldo
    ensures r.slackNotified == slackNotified
  {
    TransactionResponse(success, message, transactionId, novoSaldo, slackNotified)
  }
}
