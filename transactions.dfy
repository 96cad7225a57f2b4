/**
 * The transaction routes: a check-out (retirada) or check-in (devolução) of
 * units of one item, and the two history queries. The result of posting the
 * Slack notification is an input. Which Slack user the mention names is given
 * by `ResolveSlackUser`, over the people sheet's rows and the Slack user list.
 * Writing the history row to the spreadsheet is not modelled, and the sheet's
 * quantity update is a no-op.
 */
module Transactions {
  import opened Wrappers
  import opened Text
  import opened Models
  import Validators
  import opened Store
  import Slack
  import PeopleSheet
  import Sheets

  /** The errors the route raises: 404 for an unknown item, 400 for a guard that
      fails, quoting the count it checked. */
  datatype TxError = NotFound | InsufficientStock(disponivel: int) | NotEnoughInUse(emUso: int)

  /** The guard and the new (available, in use) split. A check-out needs enough
      available units and moves them into use; anything else is a check-in,
      which needs enough units in use and moves them back. */
  function NewQuantities(tipo: string, disponivel: int, emUso: int, quantidade: int)
    : (r: Result<(int, int), TxError>)
    ensures tipo == "retirada" ==> (r.Ok? <==> Validators.StockAvailable(disponivel, quantidade))
    ensures tipo != "retirada" ==> (r.Ok? <==> emUso >= quantidade)
    ensures r.Err? ==>
      r.error == if tipo == "retirada" then InsufficientStock(disponivel) else NotEnoughInUse(emUso)
    ensures r.Ok? ==> r.value.0 + r.value.1 == disponivel + emUso
    ensures r.Ok? ==> r.value.0 == disponivel + (if tipo == "retirada" then -quantidade else quantidade)
  {
    if tipo == "retirada" then
      if disponivel < quantidade then Err(InsufficientStock(disponivel))
      else Ok((disponivel - quantidade, emUso + quantidade))
    else
      if emUso < quantidade then Err(NotEnoughInUse(emUso))
      else Ok((disponivel + quantidade, emUso - quantidade))
  }

  /** The item after a transaction: only the two counts change. */
  function Apply(d: ItemData, split: (int, int)): ItemData {
    d.(quantidadeDisponivel := split.0, quantidadeEmUso := split.1)
  }

  /** A transaction that passes its guard keeps the ledger balanced: the total
      is untouched and neither count goes negative. */
  lemma NewQuantitiesBalanced(d: ItemData, tipo: string, quantidade: int)
    requires Balanced(d) && quantidade > 0
    requires NewQuantities(tipo, d.quantidadeDisponivel, d.quantidadeEmUso, quantidade).Ok?
    ensures Balanced(Apply(d, NewQuantities(tipo, d.quantidadeDisponivel, d.quantidadeEmUso, quantidade).value))
    ensures Apply(d, NewQuantities(tipo, d.quantidadeDisponivel, d.quantidadeEmUso, quantidade).value)
              .quantidadeTotal == d.quantidadeTotal
  {
  }

  /** On non-negative counts, a check-in of what was just checked out is
      always accepted and restores the counts; so is the converse. */
  lemma CheckOutThenIn(disponivel: int, emUso: int, quantidade: int)
    requires disponivel >= 0 && emUso >= 0
    ensures NewQuantities("retirada", disponivel, emUso, quantidade).Ok? ==>
      var s := NewQuantities("retirada", disponivel, emUso, quantidade).value;
      NewQuantities("devolucao", s.0, s.1, quantidade) == Ok((disponivel, emUso))
    ensures NewQuantities("devolucao", disponivel, emUso, quantidade).Ok? ==>
      var s := NewQuantities("devolucao", disponivel, emUso, quantidade).value;
      NewQuantities("retirada", s.0, s.1, quantidade) == Ok((disponivel, emUso))
  {
  }

  /** The number of codes a check-out records: one per unit, while codes last;
      that is min(quantidade, available), and none for a quantity that is not
      positive (`range` of it is empty). */
  function CodesTaken(quantidade: int, available: nat): (n: nat)
    ensures n <= available
    ensures quantidade > 0 && available > 0 ==> n > 0
    ensures n <= quantidade || quantidade <= 0
    ensures quantidade > 0 ==> n == quantidade || n == available
    ensures quantidade <= 0 ==> n == 0
  {
    if quantidade <= 0 then 0 else if quantidade < available then quantidade else available
  }

  /** The usage records of a check-out: one per code, in order. */
  function CheckoutRecords(itemId: int, codigos: seq<string>, nomePessoa: string)
    : (r: seq<UsageRecord>)
    ensures |r| == |codigos|
    ensures forall k :: 0 <= k < |r| ==> r[k] == UsageRecord(itemId, codigos[k], nomePessoa)
  {
    if codigos == [] then []
    else CheckoutRecords(itemId, codigos[..|codigos| - 1], nomePessoa)
         + [UsageRecord(itemId, codigos[|codigos| - 1], nomePessoa)]
  }

  /** The codes checked out by `quantidade` units of an item whose codes are
      `codigosOriginais`: the first ones of its comma-split, in order. */
  function CodesOut(codigosOriginais: string, quantidade: int): seq<string> {
    var codigos := Split(codigosOriginais, ',');
    codigos[..CodesTaken(quantidade, |codigos|)]
  }

  /** A check-out of q units records min(q, number of codes) units, and the
      comma-split has one more field than there are commas; so an item with an
      empty code string still records one unit, with an empty code. */
  lemma CodesOutCount(codigosOriginais: string, quantidade: int)
    requires quantidade > 0
    ensures |CodesOut(codigosOriginais, quantidade)|
         == CodesTaken(quantidade, 1 + CountChar(codigosOriginais, ','))
    ensures |CodesOut(codigosOriginais, quantidade)| >= 1
    ensures codigosOriginais == "" ==> CodesOut(codigosOriginais, quantidade) == [""]
  {
    SplitCount(codigosOriginais, ',');
  }

  /** The Slack user of the person: their entry in the people sheet's mapping,
      looked up by the lower-cased name, or else a search of the user list. */
  function ResolveSlackUser(mapping: map<string, string>, slack: Slack.SlackService,
                            users: Option<seq<Slack.SlackUser>>, nomePessoa: string)
    : (r: Option<string>)
    ensures Lower(nomePessoa) in mapping && mapping[Lower(nomePessoa)] != "" ==>
      r == Some(mapping[Lower(nomePessoa)])
    ensures !(Lower(nomePessoa) in mapping && mapping[Lower(nomePessoa)] != "") ==>
      r == Slack.FindUserByName(slack, users, nomePessoa)
  {
    var fromSheet := if Lower(nomePessoa) in mapping then mapping[Lower(nomePessoa)] else "";
    if fromSheet != "" then Some(fromSheet) else Slack.FindUserByName(slack, users, nomePessoa)
  }

  /** The people sheet wins: when the last row naming the person (in lower
      case) gives a Slack user, that user is notified, whatever the user list
      holds. */
  lemma ResolveFromPeopleSheet(rows: seq<Sheets.Row>, slack: Slack.SlackService,
                               users: Option<seq<Slack.SlackUser>>, nomePessoa: string, i: int)
    requires 0 <= i < |rows| && PeopleSheet.MappingEntry(rows[i]).Some?
    requires PeopleSheet.MappingEntry(rows[i]).value.0 == Lower(nomePessoa)
    requires forall j :: i < j < |rows| ==>
      PeopleSheet.MappingEntry(rows[j]).None? || PeopleSheet.MappingEntry(rows[j]).value.0 != Lower(nomePessoa)
    ensures ResolveSlackUser(PeopleSheet.MappingOf(rows), slack, users, nomePessoa)
         == Some(PeopleSheet.MappingEntry(rows[i]).value.1)
  {
    PeopleSheet.MappingOfLastWins(rows, i);
    PeopleSheet.MappingOfWellFormed(rows);
  }

  /** The mapping's keys are stripped, but the lookup only lower-cases: a name
      typed with leading whitespace is never found in the people sheet, and the
      user list is searched instead. */
  lemma PaddedNameMissesPeopleSheet(rows: seq<Sheets.Row>, slack: Slack.SlackService,
                                    users: Option<seq<Slack.SlackUser>>, nomePessoa: string)
    requires nomePessoa != [] && IsSpace(nomePessoa[0])
    ensures ResolveSlackUser(PeopleSheet.MappingOf(rows), slack, users, nomePessoa)
         == Slack.FindUserByName(slack, users, nomePessoa)
  {
    var k := Lower(nomePessoa);
    PeopleSheet.MappingOfWellFormed(rows);
    assert IsSpace(k[0]);
    StripIsTrimmedSlice(k);
    assert Validators.NormalizeName(k) == Lower(Strip(k));
    if Strip(k) != [] {
      assert !IsSpace(Lower(Strip(k))[0]);
    }
    assert Validators.NormalizeName(k) != k;
  }

  /** The confirmation message of a successful transaction. */
  function SuccessMessage(tipo: string): (m: string)
    ensures tipo == "retirada" <==> m == "Retirada realizada com sucesso!"
  {
    (if tipo == "retirada" then "Retirada" else "Devolução") + " realizada com sucesso!"
  }

  /** `create_transaction`. An unknown item or a failed guard raises before
      anything is written. Otherwise the route inserts the ledger record, then
      updates the item's counts, then records the usage codes (check-out) or
      removes the person's usage records (check-in), and reports the new
      available count and whether the Slack notification went out. */
  method CreateTransaction(db: Database, req: TransactionCreate, slack: Slack.SlackService,
                           posted: Option<bool>)
    returns (r: Result<TransactionResponse, TxError>)
    requires db.Valid()
    modifies db
    ensures db.Valid()
    ensures db.nextItemId == old(db.nextItemId)
    ensures req.itemId !in old(db.items) ==>
      r == Err(NotFound)
      && db.items == old(db.items) && db.transactions == old(db.transactions) && db.usage == old(db.usage)
    ensures req.itemId in old(db.items) ==>
      var d := old(db.items)[req.itemId];
      var q := NewQuantities(req.tipo, d.quantidadeDisponivel, d.quantidadeEmUso, req.quantidade);
      (q.Err? ==>
         r == Err(q.error)
         && db.items == old(db.items) && db.transactions == old(db.transactions)
         && db.usage == old(db.usage))
      && (q.Ok? ==>
            r.Ok?
            && r.value == TransactionResponse(true, SuccessMessage(req.tipo), r.value.transactionId,
                                              q.value.0, Slack.SendTransactionNotification(slack, posted))
            && db.transactions == old(db.transactions)
                 + [Transaction(Some(r.value.transactionId), req.tipo, req.itemId, Some(d.nome),
                                req.quantidade, req.nomePessoa, q.value.0)]
            && db.items == old(db.items)[req.itemId := Apply(d, q.value)]
            && db.usage == if req.tipo == "retirada" then
                             old(db.usage) + CheckoutRecords(req.itemId, CodesOut(d.codigosOriginais, req.quantidade),
                                                             req.nomePessoa)
                           else RemoveLoans(old(db.usage), req.itemId, req.nomePessoa, req.quantidade))
  {
    var item := db.GetItemById(req.itemId);
    if item.None? {
      return Err(NotFound);
    }
    var d := item.value.data;
    var split := NewQuantities(req.tipo, d.quantidadeDisponivel, d.quantidadeEmUso, req.quantidade);
    if split.Err? {
      return Err(split.error);
    }
    var newDisponivel, newEmUso := split.value.0, split.value.1;
    var transaction := Transaction(None, req.tipo, req.itemId, Some(d.nome), req.quantidade,
                                   req.nomePessoa, newDisponivel);
    var transactionId := db.CreateTransaction(transaction);
    var _ := db.SetQuantities(req.itemId, newDisponivel, newEmUso);
    if req.tipo == "retirada" {
      RecordCheckout(db, req.itemId, d.codigosOriginais, req.quantidade, req.nomePessoa);
    } else {
      db.RemoveItemEmUso(req.itemId, req.nomePessoa, req.quantidade);
    }
    var slackNotified := Slack.SendTransactionNotification(slack, posted);
    r := Ok(TransactionResponse(true, SuccessMessage(req.tipo), transactionId, newDisponivel, slackNotified));
  }

  /** The usage-code loop of a check-out: for each unit i, the i-th code is
      recorded while there are codes. */
  method RecordCheckout(db: Database, itemId: int, codigosOriginais: string, quantidade: int,
                        nomePessoa: string)
    requires db.Valid()
    modifies db
    ensures db.Valid()
    ensures db.usage == old(db.usage) + CheckoutRecords(itemId, CodesOut(codigosOriginais, quantidade), nomePessoa)
    ensures db.items == old(db.items) && db.nextItemId == old(db.nextItemId)
    ensures db.transactions == old(db.transactions) && db.nextTransactionId == old(db.nextTransactionId)
  {
    var codigos := Split(codigosOriginais, ',');
    var i := 0;
    while i < quantidade
      invariant 0 <= i <= (if quantidade > 0 then quantidade else 0)
      invariant db.Valid()
      invariant db.usage == old(db.usage) + CheckoutRecords(itemId, codigos[..CodesTaken(i, |codigos|)], nomePessoa)
      invariant db.items == old(db.items) && db.nextItemId == old(db.nextItemId)
      invariant db.transactions == old(db.transactions) && db.nextTransactionId == old(db.nextTransactionId)
    {
      if i < |codigos| {
        db.AddItemEmUso(itemId, codigos[i], nomePessoa);
        assert codigos[..i + 1][..i] == codigos[..i];
      }
      i := i + 1;
    }
    assert CodesTaken(i, |codigos|) == CodesTaken(quantidade, |codigos|);
  }

  /** A request whose limit is outside the route's bounds is rejected. */
  datatype QueryError = LimitOutOfRange(lo: int, hi: int)

  /** `get_history`: the latest `limit` transactions, newest first; the limit
      defaults to 50 and must lie in 1..200. */
  method GetHistory(db: Database, limit: int := 50) returns (r: Result<seq<Transaction>, QueryError>)
    ensures !(1 <= limit <= 200) <==> r == Err(LimitOutOfRange(1, 200))
    ensures r.Ok? ==> |r.value| <= limit
    ensures r.Ok? ==> r.value == Reverse(db.transactions)[..LimitCount(limit, |db.transactions|)]
  {
    if !(1 <= limit <= 200) {
      return Err(LimitOutOfRange(1, 200));
    }
    var ts := db.GetTransactions(limit);
    return Ok(ts);
  }

  /** `get_item_history`: the latest `limit` transactions of one item, newest
      first; the limit defaults to 20 and must lie in 1..100. */
  method GetItemHistory(db: Database, itemId: int, limit: int := 20)
    returns (r: Result<seq<Transaction>, QueryError>)
    ensures !(1 <= limit <= 100) <==> r == Err(LimitOutOfRange(1, 100))
    ensures r.Ok? ==> |r.value| <= limit
    ensures r.Ok? ==> forall t :: t in r.value ==> t in db.transactions && t.itemId == itemId
    ensures r.Ok? ==>
      r.value == Reverse(ForItem(db.transactions, itemId))[..LimitCount(limit, |ForItem(db.transactions, itemId)|)]
  {
    if !(1 <= limit <= 100) {
      return Err(LimitOutOfRange(1, 100));
    }
    var ts := db.GetTransactionsByItem(itemId, limit);
    return Ok(ts);
  }
}
