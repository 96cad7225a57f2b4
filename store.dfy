/**
 * The item/transaction store. The SQLite tables become fields of a class: a map
 * from row id to item, an append-only sequence of transactions, and the list of
 * usage records ("items em uso"). Row ids come from AUTOINCREMENT counters and
 * are never reused.
 */
module Store {
  import opened Wrappers
  import opened Text
  import opened Models

  // ---------------------------------------------------------------------------
  // ORDER BY nome: SQLite's BINARY collation compares code points.

  predicate NameLe(a: string, b: string) {
    a == [] || (b != [] && (a[0] < b[0] || (a[0] == b[0] && NameLe(a[1..], b[1..]))))
  }

  lemma {:induction false} NameLeTotal(a: string, b: string)
    ensures NameLe(a, b) || NameLe(b, a)
  {
    if a != [] && b != [] && a[0] == b[0] {
      NameLeTotal(a[1..], b[1..]);
    }
  }

  lemma {:induction false} NameLeTrans(a: string, b: string, c: string)
    requires NameLe(a, b) && NameLe(b, c)
    ensures NameLe(a, c)
  {
    if a != [] && b != [] && c != [] && a[0] == b[0] == c[0] {
      NameLeTrans(a[1..], b[1..], c[1..]);
    }
  }

  predicate SortedByName(s: seq<StoredItem>) {
    forall i, j :: 0 <= i < j < |s| ==> NameLe(s[i].data.nome, s[j].data.nome)
  }

  /** Inserts x before the first element whose name is not below it. */
  function InsertByName(s: seq<StoredItem>, x: StoredItem): (r: seq<StoredItem>)
    ensures multiset(r) == multiset(s) + multiset{x}
  {
    if s == [] then [x]
    else if NameLe(x.data.nome, s[0].data.nome) then [x] + s
    else
      assert s == [s[0]] + s[1..];
      [s[0]] + InsertByName(s[1..], x)
  }

  lemma {:induction false} InsertByNameSorted(s: seq<StoredItem>, x: StoredItem)
    requires SortedByName(s)
    ensures SortedByName(InsertByName(s, x))
  {
    if s == [] {
    } else if NameLe(x.data.nome, s[0].data.nome) {
      forall j | 0 < j < |s| ensures NameLe(x.data.nome, s[j].data.nome) {
        NameLeTrans(x.data.nome, s[0].data.nome, s[j].data.nome);
      }
    } else {
      InsertByNameSorted(s[1..], x);
      NameLeTotal(x.data.nome, s[0].data.nome);
      HeadBelowInsert(s, x);
      ConsSorted(s[0], InsertByName(s[1..], x));
    }
  }

  /** The head of a sorted list sorts no later than anything inserted after it. */
  lemma HeadBelowInsert(s: seq<StoredItem>, x: StoredItem)
    requires SortedByName(s) && s != [] && NameLe(s[0].data.nome, x.data.nome)
    ensures forall e :: e in InsertByName(s[1..], x) ==> NameLe(s[0].data.nome, e.data.nome)
  {
    var rest := InsertByName(s[1..], x);
    forall e | e in rest ensures NameLe(s[0].data.nome, e.data.nome) {
      assert e in multiset(rest);
      if e != x {
        assert e in multiset(s[1..]);
        var k :| 0 <= k < |s[1..]| && s[1..][k] == e;
        assert s[k + 1] == e;
      }
    }
  }

  /** A sorted list stays sorted under a head that sorts no later than it. */
  lemma ConsSorted(h: StoredItem, rest: seq<StoredItem>)
    requires SortedByName(rest)
    requires forall e :: e in rest ==> NameLe(h.data.nome, e.data.nome)
    ensures SortedByName([h] + rest)
  {
    var r := [h] + rest;
    forall i, j | 0 <= i < j < |r| ensures NameLe(r[i].data.nome, r[j].data.nome) {
      if i == 0 {
        assert r[j] == rest[j - 1];
        assert r[j] in rest;
      } else {
        assert r[i] == rest[i - 1] && r[j] == rest[j - 1];
      }
    }
  }

  /** Items whose name contains q, in the order of s. */
  function Matching(s: seq<StoredItem>, q: string): (r: seq<StoredItem>)
    ensures multiset(r) <= multiset(s)
    ensures forall x :: x in r ==> x in s && Contains(x.data.nome, q)
  {
    if s == [] then []
    else
      var init := Matching(s[..|s| - 1], q);
      assert s == s[..|s| - 1] + [s[|s| - 1]];
      if Contains(s[|s| - 1].data.nome, q) then init + [s[|s| - 1]] else init
  }

  lemma {:induction false} MatchingKeeps(s: seq<StoredItem>, q: string, x: StoredItem)
    requires x in s && Contains(x.data.nome, q)
    ensures x in Matching(s, q)
  {
    var init := s[..|s| - 1];
    assert s == init + [s[|s| - 1]];
    if x != s[|s| - 1] {
      MatchingKeeps(init, q, x);
    }
  }

  lemma {:induction false} MatchingSorted(s: seq<StoredItem>, q: string)
    requires SortedByName(s)
    ensures SortedByName(Matching(s, q))
  {
    if s != [] {
      var init := s[..|s| - 1];
      var last := s[|s| - 1];
      assert SortedByName(init);
      MatchingSorted(init, q);
      var m := Matching(init, q);
      if Contains(last.data.nome, q) {
        forall x | x in m ensures NameLe(x.data.nome, last.data.nome) {
          var k :| 0 <= k < |init| && init[k] == x;
          assert s[k] == x;
        }
        var r := m + [last];
        forall i, j | 0 <= i < j < |r| ensures NameLe(r[i].data.nome, r[j].data.nome) {
          if j == |r| - 1 {
            assert r[i] in m;
          } else {
            assert r[i] == m[i] && r[j] == m[j];
          }
        }
      }
    }
  }

  // ---------------------------------------------------------------------------
  // The items table as a value, shared with the reconciliation pass.

  /** The items table and its AUTOINCREMENT counter. */
  datatype Tables = Tables(items: map<int, ItemData>, nextItemId: int)

  /** Every row id was handed out by the counter, which starts at 1. */
  predicate TablesValid(t: Tables) {
    t.nextItemId >= 1 && forall id :: id in t.items ==> 1 <= id < t.nextItemId
  }

  /** `upsert_item`: an item with a (truthy) id overwrites the columns of that row
      (an id with no row changes nothing) and returns the id; an item without one
      is inserted under a fresh id, which is returned. */
  function Upsert(t: Tables, data: ItemData, id: Option<int>): (r: (Tables, int))
    requires TablesValid(t)
    ensures TablesValid(r.0)
    ensures forall k :: k in t.items && k != r.1 ==> k in r.0.items && r.0.items[k] == t.items[k]
    ensures r.1 in r.0.items ==> r.0.items[r.1] == data
    ensures id.Some? && id.value != 0 ==>
      r.1 == id.value && r.0.items.Keys == t.items.Keys && r.0.nextItemId == t.nextItemId
    ensures !(id.Some? && id.value != 0) ==>
      r.1 !in t.items && r.0.items.Keys == t.items.Keys + {r.1} && r.0.nextItemId > r.1
  {
    if id.Some? && id.value != 0 then
      var items := if id.value in t.items then t.items[id.value := data] else t.items;
      (Tables(items, t.nextItemId), id.value)
    else
      (Tables(t.items[t.nextItemId := data], t.nextItemId + 1), t.nextItemId)
  }

  predicate HasKey(d: ItemData, nome: string, aba: string) {
    d.nome == nome && d.abaOrigem == aba
  }

  /** First row with ids in [lo, hi) whose name and sheet match. */
  function Scan(items: map<int, ItemData>, nome: string, aba: string, lo: int, hi: int)
    : (r: Option<StoredItem>)
    ensures r.Some? ==>
      lo <= r.value.id < hi && r.value.id in items
      && items[r.value.id] == r.value.data && HasKey(r.value.data, nome, aba)
    decreases hi - lo
  {
    if lo >= hi then None
    else if lo in items && HasKey(items[lo], nome, aba) then Some(StoredItem(lo, items[lo]))
    else Scan(items, nome, aba, lo + 1, hi)
  }

  lemma {:induction false} ScanFindsLeast(items: map<int, ItemData>, nome: string, aba: string, lo: int, hi: int)
    ensures Scan(items, nome, aba, lo, hi).None? ==>
      forall k :: k in items && lo <= k < hi ==> !HasKey(items[k], nome, aba)
    ensures Scan(items, nome, aba, lo, hi).Some? ==>
      forall k :: k in items && lo <= k < Scan(items, nome, aba, lo, hi).value.id ==> !HasKey(items[k], nome, aba)
    decreases hi - lo
  {
    if lo < hi && !(lo in items && HasKey(items[lo], nome, aba)) {
      ScanFindsLeast(items, nome, aba, lo + 1, hi);
    }
  }

  /** Two tables that agree on which ids in [lo, hi) match, and on those rows,
      give the same lookup result. */
  lemma {:induction false} ScanFrame(a: map<int, ItemData>, b: map<int, ItemData>, nome: string, aba: string, lo: int, hi: int)
    requires forall k :: lo <= k < hi ==>
      ((k in a && HasKey(a[k], nome, aba)) <==> (k in b && HasKey(b[k], nome, aba)))
    requires forall k :: lo <= k < hi && k in a && HasKey(a[k], nome, aba) ==> a[k] == b[k]
    ensures Scan(a, nome, aba, lo, hi) == Scan(b, nome, aba, lo, hi)
    decreases hi - lo
  {
    if lo < hi {
      ScanFrame(a, b, nome, aba, lo + 1, hi);
    }
  }

  lemma {:induction false} ScanExtend(items: map<int, ItemData>, nome: string, aba: string, lo: int, hi: int, hi': int)
    requires lo <= hi <= hi'
    requires forall k :: hi <= k < hi' && k in items ==> !HasKey(items[k], nome, aba)
    ensures Scan(items, nome, aba, lo, hi') == Scan(items, nome, aba, lo, hi)
    decreases hi - lo
  {
    if lo < hi {
      ScanExtend(items, nome, aba, lo + 1, hi, hi');
    } else {
      ScanNone(items, nome, aba, lo, hi');
    }
  }

  lemma {:induction false} ScanNone(items: map<int, ItemData>, nome: string, aba: string, lo: int, hi: int)
    requires forall k :: lo <= k < hi && k in items ==> !HasKey(items[k], nome, aba)
    ensures Scan(items, nome, aba, lo, hi) == None
    decreases hi - lo
  {
    if lo < hi {
      ScanNone(items, nome, aba, lo + 1, hi);
    }
  }

  /** `get_item_by_name_and_aba`: the matching row with the least id, if any. */
  function FindByNameAndAba(t: Tables, nome: string, aba: string): Option<StoredItem> {
    Scan(t.items, nome, aba, 1, t.nextItemId)
  }

  /** The lookup finds a stored row with that name and sheet, the one with the
      least id, and finds nothing exactly when no row has that name and sheet. */
  lemma FindByNameAndAbaSpec(t: Tables, nome: string, aba: string)
    requires TablesValid(t)
    ensures FindByNameAndAba(t, nome, aba).Some? ==>
      var x := FindByNameAndAba(t, nome, aba).value;
      x.id in t.items && t.items[x.id] == x.data && HasKey(x.data, nome, aba)
      && forall k :: k in t.items && HasKey(t.items[k], nome, aba) ==> x.id <= k
    ensures FindByNameAndAba(t, nome, aba).None? <==>
      forall k :: k in t.items ==> !HasKey(t.items[k], nome, aba)
  {
    ScanFindsLeast(t.items, nome, aba, 1, t.nextItemId);
  }

  lemma PrefixMultiset<T>(s: seq<T>, i: nat)
    requires i <= |s|
    ensures multiset(s[..i]) <= multiset(s)
  {
    assert s == s[..i] + s[i..];
  }

  /** A matching item missed by a scan of the first i items of a sorted list
      lies beyond them, so every item the scan found sorts no later. */
  lemma SearchCutoff(all: seq<StoredItem>, q: string, i: nat, y: StoredItem)
    requires SortedByName(all) && i <= |all|
    requires y in all && Contains(y.data.nome, q) && y !in Matching(all[..i], q)
    ensures i < |all|
    ensures forall x :: x in Matching(all[..i], q) ==> NameLe(x.data.nome, y.data.nome)
  {
    var j :| 0 <= j < |all| && all[j] == y;
    if j < i {
      assert all[..i][j] == y;
      MatchingKeeps(all[..i], q, y);
    }
    forall x | x in Matching(all[..i], q) ensures NameLe(x.data.nome, y.data.nome) {
      var k :| 0 <= k < i && all[..i][k] == x;
      assert all[k] == x;
    }
  }

  /** What a scan of a sorted listing of the items, stopped after i items with
      20 matches or at the end, has found: sorted, distinct, matching items,
      and every matching item left out sorts no earlier than all of them. */
  lemma SearchResult(items: map<int, ItemData>, all: seq<StoredItem>, q: string, i: nat)
    requires forall x :: multiset(all)[x] == if x.id in items && items[x.id] == x.data then 1 else 0
    requires SortedByName(all) && i <= |all|
    requires i == |all| || |Matching(all[..i], q)| == 20
    ensures SortedByName(Matching(all[..i], q))
    ensures forall x :: multiset(Matching(all[..i], q))[x] <= 1
    ensures forall x :: x in Matching(all[..i], q) ==>
              x.id in items && items[x.id] == x.data && Contains(x.data.nome, q)
    ensures forall id :: id in items && Contains(items[id].nome, q)
              && StoredItem(id, items[id]) !in Matching(all[..i], q)
              ==> |Matching(all[..i], q)| == 20
                  && forall x :: x in Matching(all[..i], q) ==> NameLe(x.data.nome, items[id].nome)
  {
    var r := Matching(all[..i], q);
    MatchingSorted(all[..i], q);
    PrefixMultiset(all, i);
    forall x ensures multiset(r)[x] <= 1 {
      assert multiset(r)[x] <= multiset(all)[x];
    }
    forall x | x in r ensures x.id in items && items[x.id] == x.data {
      assert multiset(all)[x] >= 1;
    }
    forall id | id in items && Contains(items[id].nome, q) && StoredItem(id, items[id]) !in r
      ensures |r| == 20 && forall x :: x in r ==> NameLe(x.data.nome, items[id].nome)
    {
      var y := StoredItem(id, items[id]);
      assert multiset(all)[y] == 1;
      SearchCutoff(all, q, i, y);
    }
  }

  // ---------------------------------------------------------------------------
  // Transactions: newest first.

  function Reverse(s: seq<Transaction>): (r: seq<Transaction>)
    ensures |r| == |s|
    ensures forall i :: 0 <= i < |s| ==> r[i] == s[|s| - 1 - i]
  {
    if s == [] then [] else [s[|s| - 1]] + Reverse(s[..|s| - 1])
  }

  /** SQLite's LIMIT: a negative limit means no limit. */
  function LimitCount(limit: int, available: nat): (n: nat)
    ensures n <= available
    ensures limit >= 0 ==> n == if limit < available then limit else available
    ensures limit < 0 ==> n == available
  {
    if limit < 0 || limit > available then available else limit
  }

  /** The transactions of one item, oldest first. */
  function ForItem(txs: seq<Transaction>, itemId: int): (r: seq<Transaction>)
    ensures forall x :: x in r ==> x in txs && x.itemId == itemId
  {
    if txs == [] then []
    else
      var init := ForItem(txs[..|txs| - 1], itemId);
      assert txs == txs[..|txs| - 1] + [txs[|txs| - 1]];
      if txs[|txs| - 1].itemId == itemId then init + [txs[|txs| - 1]] else init
  }

  lemma {:induction false} ForItemAppend(a: seq<Transaction>, b: seq<Transaction>, itemId: int)
    ensures ForItem(a + b, itemId) == ForItem(a, itemId) + ForItem(b, itemId)
    decreases |b|
  {
    if b != [] {
      var b' := b[..|b| - 1];
      assert (a + b)[..|a + b| - 1] == a + b';
      assert (a + b)[|a + b| - 1] == b[|b| - 1];
      ForItemAppend(a, b', itemId);
    } else {
      assert a + b == a;
    }
  }

  /** Scanning one older transaction puts it, when it is the item's, at the
      end of the newest-first list. */
  lemma ForItemStep(txs: seq<Transaction>, j: int, itemId: int)
    requires 0 < j <= |txs|
    ensures Reverse(ForItem(txs[j - 1..], itemId))
         == Reverse(ForItem(txs[j..], itemId)) + (if txs[j - 1].itemId == itemId then [txs[j - 1]] else [])
  {
    var x := txs[j - 1];
    var tail := ForItem(txs[j..], itemId);
    assert txs[j - 1..] == [x] + txs[j..];
    ForItemAppend([x], txs[j..], itemId);
    assert ForItem([x], itemId) == (if x.itemId == itemId then [x] else []) by {
      assert [x][..0] == [];
    }
    if x.itemId == itemId {
      ReverseAppend([x], tail);
      assert Reverse([x]) == [x];
    } else {
      assert [] + tail == tail;
    }
  }

  /** The item's transactions from j on, newest first, begin the item's whole
      newest-first list, and come from the list. */
  lemma ForItemSuffix(txs: seq<Transaction>, j: int, itemId: int)
    requires 0 <= j <= |txs|
    ensures |ForItem(txs[j..], itemId)| <= |ForItem(txs, itemId)|
    ensures Reverse(ForItem(txs[j..], itemId))
         == Reverse(ForItem(txs, itemId))[..|ForItem(txs[j..], itemId)|]
    ensures forall x :: x in Reverse(ForItem(txs[j..], itemId)) ==> x in txs && x.itemId == itemId
  {
    var p := ForItem(txs[..j], itemId);
    var t := ForItem(txs[j..], itemId);
    ForItemAppend(txs[..j], txs[j..], itemId);
    assert txs[..j] + txs[j..] == txs;
    var f := p + t;
    assert ForItem(txs, itemId) == f;
    ReverseOfSuffix(p, t);
    forall x | x in Reverse(t) ensures x in txs && x.itemId == itemId {
      ReverseHas(t, x);
      assert x in txs[j..];
    }
  }

  lemma ReverseHas(s: seq<Transaction>, x: Transaction)
    requires x in Reverse(s)
    ensures x in s
  {
    var r := Reverse(s);
    var k :| 0 <= k < |r| && r[k] == x;
    assert s[|s| - 1 - k] == x;
  }

  lemma ReverseOfSuffix(p: seq<Transaction>, t: seq<Transaction>)
    ensures Reverse(t) == Reverse(p + t)[..|t|]
  {
    ReverseAppend(p, t);
    assert (Reverse(t) + Reverse(p))[..|t|] == Reverse(t);
  }

  /** Reversing a concatenation reverses the order of the parts. */
  lemma {:induction false} ReverseAppend(p: seq<Transaction>, t: seq<Transaction>)
    ensures Reverse(p + t) == Reverse(t) + Reverse(p)
    decreases |t|
  {
    if t == [] {
      assert p + t == p;
    } else {
      var t' := t[..|t| - 1];
      assert (p + t)[..|p + t| - 1] == p + t';
      ReverseAppend(p, t');
    }
  }

  /** Every transaction of the item is kept, and nothing else. */
  lemma {:induction false} ForItemComplete(txs: seq<Transaction>, itemId: int, x: Transaction)
    ensures x in ForItem(txs, itemId) <==> x in txs && x.itemId == itemId
  {
    if txs != [] {
      var init := txs[..|txs| - 1];
      assert txs == init + [txs[|txs| - 1]];
      ForItemComplete(init, itemId, x);
    }
  }

  // ---------------------------------------------------------------------------
  // Usage records.

  /** A unit currently checked out: the item, the original code (possibly
      empty) and who took it. The timestamps are not modelled. */
  datatype UsageRecord = UsageRecord(itemId: int, codigo: string, nomePessoa: string)

  predicate IsLoanOf(u: UsageRecord, itemId: int, nomePessoa: string) {
    u.itemId == itemId && u.nomePessoa == nomePessoa
  }

  /** Removes the `count` oldest records of one (item, person) pair. */
  function RemoveLoans(s: seq<UsageRecord>, itemId: int, nomePessoa: string, count: int)
    : seq<UsageRecord>
  {
    if s == [] then []
    else if count > 0 && IsLoanOf(s[0], itemId, nomePessoa) then
      RemoveLoans(s[1..], itemId, nomePessoa, count - 1)
    else [s[0]] + RemoveLoans(s[1..], itemId, nomePessoa, count)
  }

  function CountLoans(s: seq<UsageRecord>, itemId: int, nomePessoa: string): nat {
    if s == [] then 0
    else (if IsLoanOf(s[0], itemId, nomePessoa) then 1 else 0) + CountLoans(s[1..], itemId, nomePessoa)
  }

  function OtherLoans(s: seq<UsageRecord>, itemId: int, nomePessoa: string): seq<UsageRecord> {
    if s == [] then []
    else
      (if IsLoanOf(s[0], itemId, nomePessoa) then [] else [s[0]])
      + OtherLoans(s[1..], itemId, nomePessoa)
  }

  function Min(a: int, b: int): int { if a < b then a else b }

  /** Removing loans takes away min(count, loans held) records of that pair and
      leaves every other record, in order. */
  lemma {:induction false} RemoveLoansSpec(s: seq<UsageRecord>, itemId: int, nomePessoa: string, count: int)
    requires count >= 0
    ensures |RemoveLoans(s, itemId, nomePessoa, count)|
         == |s| - Min(count, CountLoans(s, itemId, nomePessoa))
    ensures OtherLoans(RemoveLoans(s, itemId, nomePessoa, count), itemId, nomePessoa)
         == OtherLoans(s, itemId, nomePessoa)
    ensures CountLoans(RemoveLoans(s, itemId, nomePessoa, count), itemId, nomePessoa)
         == CountLoans(s, itemId, nomePessoa) - Min(count, CountLoans(s, itemId, nomePessoa))
  {
    if s != [] {
      if count > 0 && IsLoanOf(s[0], itemId, nomePessoa) {
        RemoveLoansSpec(s[1..], itemId, nomePessoa, count - 1);
      } else {
        RemoveLoansSpec(s[1..], itemId, nomePessoa, count);
        var r := [s[0]] + RemoveLoans(s[1..], itemId, nomePessoa, count);
        assert r[1..] == RemoveLoans(s[1..], itemId, nomePessoa, count);
      }
    }
  }

  function UsageOfItem(s: seq<UsageRecord>, itemId: int): (r: seq<UsageRecord>)
    ensures forall u :: u in r ==> u in s && u.itemId == itemId
  {
    if s == [] then []
    else (if s[0].itemId == itemId then [s[0]] else []) + UsageOfItem(s[1..], itemId)
  }

  // ---------------------------------------------------------------------------
  // The store.

  class Database {
    var items: map<int, ItemData>
    var nextItemId: int
    var transactions: seq<Transaction>
    var nextTransactionId: int
    var usage: seq<UsageRecord>

    ghost predicate Valid()
      reads this
    {
      TablesValid(Tables(items, nextItemId))
      && nextTransactionId >= 1
      && forall i :: 0 <= i < |transactions| ==>
           transactions[i].id.Some? && 1 <= transactions[i].id.value < nextTransactionId
    }

    function ItemTables(): Tables
      reads this
    {
      Tables(items, nextItemId)
    }

    constructor ()
      ensures Valid()
      ensures items == map[] && transactions == [] && usage == []
    {
      items := map[];
      nextItemId := 1;
      transactions := [];
      nextTransactionId := 1;
      usage := [];
    }

    /** `get_all_items`: every row exactly once, ordered by name. */
    method GetAllItems() returns (r: seq<StoredItem>)
      requires Valid()
      ensures forall x :: multiset(r)[x] == if x.id in items && items[x.id] == x.data then 1 else 0
      ensures SortedByName(r)
    {
      r := [];
      var k := 1;
      while k < nextItemId
        invariant 1 <= k <= nextItemId
        invariant SortedByName(r)
        invariant forall x :: multiset(r)[x] == if x.id in items && x.id < k && items[x.id] == x.data then 1 else 0
      {
        if k in items {
          var x := StoredItem(k, items[k]);
          InsertByNameSorted(r, x);
          r := InsertByName(r, x);
        }
        k := k + 1;
      }
    }

    /** `get_item_by_id`: the row with that id, or None. */
    method GetItemById(id: int) returns (r: Option<StoredItem>)
      ensures r.Some? <==> id in items
      ensures r.Some? ==> r.value == StoredItem(id, items[id])
    {
      if id in items {
        r := Some(StoredItem(id, items[id]));
      } else {
        r := None;
      }
    }

    /** `search_items`: rows whose name contains q, ordered by name, at most 20;
        a matching row is left out only when 20 rows that sort no later are
        returned. */
    method SearchItems(q: string) returns (r: seq<StoredItem>)
      requires Valid()
      ensures |r| <= 20
      ensures SortedByName(r)
      ensures forall x :: multiset(r)[x] <= 1
      ensures forall x :: x in r ==> x.id in items && items[x.id] == x.data && Contains(x.data.nome, q)
      ensures forall id :: id in items && Contains(items[id].nome, q) && StoredItem(id, items[id]) !in r
                ==> |r| == 20 && forall x :: x in r ==> NameLe(x.data.nome, items[id].nome)
    {
      var all := GetAllItems();
      r := [];
      var i := 0;
      while i < |all| && |r| < 20
        invariant 0 <= i <= |all|
        invariant r == Matching(all[..i], q)
        invariant |r| <= 20
      {
        assert all[..i + 1] == all[..i] + [all[i]];
        if Contains(all[i].data.nome, q) {
          r := r + [all[i]];
        }
        i := i + 1;
      }
      SearchResult(items, all, q, i);
    }

    /** `get_item_by_name_and_aba`: the row with that name and sheet and the
        least id, or None. */
    method GetItemByNameAndAba(nome: string, aba: string) returns (r: Option<StoredItem>)
      requires Valid()
      ensures r == FindByNameAndAba(ItemTables(), nome, aba)
    {
      var id := nextItemId;
      r := None;
      while id > 1
        invariant 1 <= id <= nextItemId
        invariant r == Scan(items, nome, aba, id, nextItemId)
      {
        id := id - 1;
        if id in items && HasKey(items[id], nome, aba) {
          r := Some(StoredItem(id, items[id]));
        }
      }
    }

    /** `upsert_item`, with every column of the item written. */
    method UpsertItem(data: ItemData, id: Option<int>) returns (newId: int)
      requires Valid()
      modifies this
      ensures Valid()
      ensures (ItemTables(), newId) == Upsert(old(ItemTables()), data, id)
      ensures transactions == old(transactions) && usage == old(usage)
      ensures nextTransactionId == old(nextTransactionId)
    {
      if id.Some? && id.value != 0 {
        if id.value in items {
          items := items[id.value := data];
        }
        newId := id.value;
      } else {
        newId := nextItemId;
        items := items[newId := data];
        nextItemId := nextItemId + 1;
      }
    }

    /** `update_item_quantity`: sets the available count of that row; reports
        whether a row was updated. */
    method UpdateItemQuantity(id: int, quantidade: int) returns (ok: bool)
      requires Valid()
      modifies this
      ensures Valid()
      ensures ok <==> id in old(items)
      ensures items == if ok then old(items)[id := old(items)[id].(quantidadeDisponivel := quantidade)]
                       else old(items)
      ensures nextItemId == old(nextItemId) && transactions == old(transactions)
      ensures usage == old(usage) && nextTransactionId == old(nextTransactionId)
    {
      ok := id in items;
      if ok {
        items := items[id := items[id].(quantidadeDisponivel := quantidade)];
      }
    }

    /** The transaction route's own UPDATE: sets the available and in-use counts
        of that row; reports whether a row was updated. */
    method SetQuantities(id: int, disponivel: int, emUso: int) returns (ok: bool)
      requires Valid()
      modifies this
      ensures Valid()
      ensures ok <==> id in old(items)
      ensures items == if ok then old(items)[id := old(items)[id].(quantidadeDisponivel := disponivel,
                                                                 quantidadeEmUso := emUso)]
                       else old(items)
      ensures nextItemId == old(nextItemId) && transactions == old(transactions)
      ensures usage == old(usage) && nextTransactionId == old(nextTransactionId)
    {
      ok := id in items;
      if ok {
        items := items[id := items[id].(quantidadeDisponivel := disponivel, quantidadeEmUso := emUso)];
      }
    }

    /** `create_transaction`: appends the record under a fresh id and returns it. */
    method CreateTransaction(t: Transaction) returns (id: int)
      requires Valid()
      modifies this
      ensures Valid()
      ensures transactions == old(transactions) + [t.(id := Some(id))]
      ensures forall i :: 0 <= i < |old(transactions)| ==> old(transactions)[i].id.value < id
      ensures items == old(items) && nextItemId == old(nextItemId) && usage == old(usage)
    {
      id := nextTransactionId;
      transactions := transactions + [t.(id := Some(id))];
      nextTransactionId := nextTransactionId + 1;
    }

    /** `get_transactions`: at most `limit` records, newest first. */
    method GetTransactions(limit: int) returns (r: seq<Transaction>)
      ensures r == Reverse(transactions)[..LimitCount(limit, |transactions|)]
    {
      var n := LimitCount(limit, |transactions|);
      r := [];
      while |r| < n
        invariant |r| <= n
        invariant r == Reverse(transactions)[..|r|]
      {
        r := r + [transactions[|transactions| - 1 - |r|]];
      }
    }

    /** `get_transactions_by_item`: at most `limit` records of that item, newest
        first. */
    method GetTransactionsByItem(itemId: int, limit: int) returns (r: seq<Transaction>)
      ensures forall x :: x in r ==> x in transactions && x.itemId == itemId
      ensures r == Reverse(ForItem(transactions, itemId))[..LimitCount(limit, |ForItem(transactions, itemId)|)]
    {
      var j := |transactions|;
      r := [];
      while j > 0 && (limit < 0 || |r| < limit)
        invariant 0 <= j <= |transactions|
        invariant r == Reverse(ForItem(transactions[j..], itemId))
        invariant limit >= 0 ==> |r| <= limit
      {
        ForItemStep(transactions, j, itemId);
        j := j - 1;
        if transactions[j].itemId == itemId {
          r := r + [transactions[j]];
        }
      }
      ForItemSuffix(transactions, j, itemId);
      if j == 0 {
        assert transactions[j..] == transactions;
      }
    }

    /** `clear_all_data`: empties the items table; transactions are kept. */
    method ClearAllData()
      requires Valid()
      modifies this
      ensures Valid()
      ensures items == map[]
      ensures transactions == old(transactions) && usage == old(usage)
      ensures nextItemId == old(nextItemId) && nextTransactionId == old(nextTransactionId)
    {
      items := map[];
    }

    /** `add_item_em_uso`: records one checked-out unit. */
    method AddItemEmUso(itemId: int, codigo: string, nomePessoa: string)
      requires Valid()
      modifies this
      ensures Valid()
      ensures usage == old(usage) + [UsageRecord(itemId, codigo, nomePessoa)]
      ensures items == old(items) && nextItemId == old(nextItemId)
      ensures transactions == old(transactions) && nextTransactionId == old(nextTransactionId)
    {
      usage := usage + [UsageRecord(itemId, codigo, nomePessoa)];
    }

    /** `remove_item_em_uso`: drops up to `count` of that person's records for
        the item, oldest first. */
    method RemoveItemEmUso(itemId: int, nomePessoa: string, count: int)
      requires Valid()
      modifies this
      ensures Valid()
      ensures usage == RemoveLoans(old(usage), itemId, nomePessoa, count)
      ensures items == old(items) && nextItemId == old(nextItemId)
      ensures transactions == old(transactions) && nextTransactionId == old(nextTransactionId)
    {
      var kept := [];
      var left := count;
      var i := 0;
      while i < |usage|
        invariant 0 <= i <= |usage|
        invariant kept + RemoveLoans(usage[i..], itemId, nomePessoa, left)
               == RemoveLoans(usage, itemId, nomePessoa, count)
      {
        assert usage[i..][1..] == usage[i + 1..];
        if left > 0 && IsLoanOf(usage[i], itemId, nomePessoa) {
          left := left - 1;
        } else {
          kept := kept + [usage[i]];
        }
        i := i + 1;
      }
      assert usage[i..] == [];
      usage := kept;
    }

    /** `get_items_em_uso_by_item`: the usage records of one item, in order. */
    method GetItemsEmUsoByItem(itemId: int) returns (r: seq<UsageRecord>)
      ensures r == UsageOfItem(usage, itemId)
      ensures forall u :: u in r ==> u in usage && u.itemId == itemId
    {
      r := [];
      var i := |usage|;
      while i > 0
        invariant 0 <= i <= |usage|
        invariant r == UsageOfItem(usage[i..], itemId)
      {
        i := i - 1;
        assert usage[i..][1..] == usage[i + 1..];
        if usage[i].itemId == itemId {
          r := [usage[i]] + r;
        }
      }
    }
  }
}
