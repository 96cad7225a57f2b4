/**
 * The spreadsheet reconciliation pass (`sync_from_sheets`) and the people sheet
 * lookup (`get_slack_user_mapping`). The worksheets' records are an input: the
 * connection, authentication and the API calls are not modelled.
 */
module Sheets {
  import opened Wrappers
  import opened Text
  import opened Models
  import opened Store
  import Validators

  /** A record as the sheet API returns it: column header to cell text. */
  type Row = map<string, string>

  /** The workbook: each worksheet's records under its title. A title that is
      absent is a missing worksheet. */
  type Workbook = map<string, seq<Row>>

  /** The inventory worksheets, in the order they are read. */
  const SheetOrder: seq<string> := ["Produto", "Mecânica", "Eletrônica"]

  /** The columns that may hold an item's name, in order of preference. */
  const NameColumns: seq<string> := ["Nome_do_Recurso", "Nome", "Item", "nome"]

  /** `record.get(k)`. */
  function Get(r: Row, k: string): Option<string> {
    if k in r then Some(r[k]) else None
  }

  /** Python truthiness of an optional cell: present and not empty. */
  predicate Truthy(v: Option<string>) {
    v.Some? && v.value != ""
  }

  /** Python's `a or b`: a if it is truthy, else b. */
  function Or(a: Option<string>, b: Option<string>): (r: Option<string>)
    ensures Truthy(r) <==> Truthy(a) || Truthy(b)
    ensures Truthy(a) ==> r == a
    ensures !Truthy(a) ==> r == b
  {
    if Truthy(a) then a else b
  }

  /** The first truthy cell among the columns, searched in order. */
  function FirstTruthy(r: Row, cols: seq<string>): (v: Option<string>)
    ensures v.Some? ==> v.value != ""
  {
    if cols == [] then None
    else if Truthy(Get(r, cols[0])) then Get(r, cols[0])
    else FirstTruthy(r, cols[1..])
  }

  /** The name cell as the pass reads it: a chain of `or`s over the name columns. */
  function RawName(r: Row): Option<string> {
    Or(Or(Or(Get(r, "Nome_do_Recurso"), Get(r, "Nome")), Get(r, "Item")), Get(r, "nome"))
  }

  /** The `or` chain yields a truthy name exactly when one of the columns holds
      one, and then it is the first such column's cell. */
  lemma RawNameIsFirstTruthy(r: Row)
    ensures Truthy(RawName(r)) <==> FirstTruthy(r, NameColumns).Some?
    ensures Truthy(RawName(r)) ==> RawName(r) == FirstTruthy(r, NameColumns)
  {
    var a, b, c, d := Get(r, "Nome_do_Recurso"), Get(r, "Nome"), Get(r, "Item"), Get(r, "nome");
    var c3: seq<string> := ["nome"];
    var c2: seq<string> := ["Item"] + c3;
    var c1: seq<string> := ["Nome"] + c2;
    assert NameColumns == ["Nome_do_Recurso"] + c1;
    assert FirstTruthy(r, c3) == if Truthy(d) then d else None by {
      assert c3[1..] == [];
    }
    assert FirstTruthy(r, c2) == if Truthy(c) then c else FirstTruthy(r, c3) by {
      assert c2[0] == "Item" && c2[1..] == c3;
    }
    assert FirstTruthy(r, c1) == if Truthy(b) then b else FirstTruthy(r, c2) by {
      assert c1[0] == "Nome" && c1[1..] == c2;
    }
    assert FirstTruthy(r, NameColumns) == if Truthy(a) then a else FirstTruthy(r, c1) by {
      assert NameColumns[0] == "Nome_do_Recurso" && NameColumns[1..] == c1;
    }
  }

  /** One spreadsheet row as the pass keeps it. */
  datatype Extracted = Extracted(
    nome: string,
    codigo: Option<string>,
    categoria: Option<string>,
    localizacao: Option<string>,
    abaOrigem: string)

  /** A row without a name, or whose name is blank, is skipped; otherwise the
      name is stripped and the code and location are read from their first
      truthy column. */
  function ExtractRow(r: Row, aba: string): Option<Extracted> {
    var nome := RawName(r);
    if !Truthy(nome) || Strip(nome.value) == "" then None
    else
      Some(Extracted(
        Strip(nome.value),
        Or(Get(r, "ID_do_Recurso"), Get(r, "ID")),
        Get(r, "Categoria"),
        Or(Get(r, "Localizacao_de_armazenamento"), Get(r, "Localização")),
        aba))
  }

  /** A row is kept exactly when its first truthy name column is not blank, and
      then its name is that cell stripped, which is non-empty and has no outer
      whitespace. */
  lemma ExtractRowSpec(r: Row, aba: string)
    ensures ExtractRow(r, aba).Some? <==>
      FirstTruthy(r, NameColumns).Some? && !AllSpace(FirstTruthy(r, NameColumns).value)
    ensures ExtractRow(r, aba).Some? ==>
      var x := ExtractRow(r, aba).value;
      x.nome == Strip(FirstTruthy(r, NameColumns).value) && x.nome != ""
      && Strip(x.nome) == x.nome && x.abaOrigem == aba
  {
    RawNameIsFirstTruthy(r);
    if FirstTruthy(r, NameColumns).Some? {
      StripEmptyIffBlank(FirstTruthy(r, NameColumns).value);
      StripIdempotent(FirstTruthy(r, NameColumns).value);
    }
  }

  /** The kept rows of one worksheet, in order. */
  function ExtractRows(rows: seq<Row>, aba: string): (r: seq<Extracted>)
    ensures forall x :: x in r ==> x.abaOrigem == aba
  {
    if rows == [] then []
    else ExtractRows(rows[..|rows| - 1], aba) + OptSeq(ExtractRow(rows[|rows| - 1], aba))
  }

  /** The kept row, if any, as a sequence of zero or one elements. */
  function OptSeq(x: Option<Extracted>): (r: seq<Extracted>)
    ensures x.None? ==> r == []
    ensures x.Some? ==> r == [x.value]
  {
    if x.Some? then [x.value] else []
  }

  /** The kept rows of one worksheet; a missing worksheet contributes nothing. */
  function Part(book: Workbook, aba: string): (r: seq<Extracted>)
    ensures forall x :: x in r ==> x.abaOrigem == aba && aba in book
  {
    if aba in book then ExtractRows(book[aba], aba) else []
  }

  /** The kept rows of the first n worksheets, sheet after sheet. */
  function ExtractSheets(book: Workbook, n: nat): seq<Extracted>
    requires n <= |SheetOrder|
  {
    if n == 0 then [] else ExtractSheets(book, n - 1) + Part(book, SheetOrder[n - 1])
  }

  /** Every row the pass reads, in reading order. */
  function ExtractAll(book: Workbook): seq<Extracted> {
    ExtractSheets(book, |SheetOrder|)
  }

  /** Position of a worksheet in the reading order. */
  function SheetRank(aba: string): nat {
    if aba == "Produto" then 0 else if aba == "Mecânica" then 1 else 2
  }

  predicate GoodName(x: Extracted) {
    x.nome != "" && Strip(x.nome) == x.nome
  }

  lemma {:induction false} ExtractRowsSpec(rows: seq<Row>, aba: string)
    ensures forall x :: x in ExtractRows(rows, aba) ==> GoodName(x) && x.abaOrigem == aba
    ensures forall r :: r in rows && ExtractRow(r, aba).Some? ==> ExtractRow(r, aba).value in ExtractRows(rows, aba)
    ensures |ExtractRows(rows, aba)| <= |rows|
  {
    if rows != [] {
      var init := rows[..|rows| - 1];
      var last := rows[|rows| - 1];
      ExtractRowsSpec(init, aba);
      ExtractRowSpec(last, aba);
      var res := ExtractRows(rows, aba);
      assert res == ExtractRows(init, aba) + OptSeq(ExtractRow(last, aba));
      forall r | r in rows && ExtractRow(r, aba).Some? ensures ExtractRow(r, aba).value in res {
        if r != last {
          var k :| 0 <= k < |rows| && rows[k] == r;
          assert init[k] == r;
        }
      }
    }
  }

  lemma ExtractAllParts(book: Workbook)
    ensures ExtractAll(book)
         == Part(book, "Produto") + Part(book, "Mecânica") + Part(book, "Eletrônica")
  {
    assert ExtractSheets(book, 1) == Part(book, "Produto");
    assert ExtractSheets(book, 2) == Part(book, "Produto") + Part(book, "Mecânica");
  }

  lemma PartSpec(book: Workbook, aba: string)
    ensures forall x :: x in Part(book, aba) ==> GoodName(x) && x.abaOrigem == aba && aba in book
  {
    if aba in book {
      ExtractRowsSpec(book[aba], aba);
    }
  }

  lemma PartComplete(book: Workbook, aba: string, r: Row)
    requires aba in book && r in book[aba] && ExtractRow(r, aba).Some?
    ensures ExtractRow(r, aba).value in Part(book, aba)
  {
    ExtractRowsSpec(book[aba], aba);
  }

  /** The rows read: each has a non-empty stripped name and comes from one of
      the three worksheets, which is present. */
  lemma ExtractAllSpec(book: Workbook)
    ensures forall x :: x in ExtractAll(book) ==>
      GoodName(x) && x.abaOrigem in SheetOrder && x.abaOrigem in book
  {
    ExtractAllParts(book);
    PartSpec(book, "Produto");
    PartSpec(book, "Mecânica");
    PartSpec(book, "Eletrônica");
  }

  /** The rows come sheet by sheet, in the fixed order. */
  lemma ExtractAllOrdered(book: Workbook)
    ensures forall i, j :: 0 <= i < j < |ExtractAll(book)| ==>
      SheetRank(ExtractAll(book)[i].abaOrigem) <= SheetRank(ExtractAll(book)[j].abaOrigem)
  {
    ExtractAllParts(book);
    var p0, p1, p2 := Part(book, "Produto"), Part(book, "Mecânica"), Part(book, "Eletrônica");
    var all := p0 + p1 + p2;
    forall i | 0 <= i < |all|
      ensures SheetRank(all[i].abaOrigem) == if i < |p0| then 0 else if i < |p0| + |p1| then 1 else 2
    {
      if i < |p0| {
        assert all[i] == p0[i] && p0[i] in p0;
      } else if i < |p0| + |p1| {
        assert all[i] == p1[i - |p0|] && p1[i - |p0|] in p1;
      } else {
        assert all[i] == p2[i - |p0| - |p1|] && p2[i - |p0| - |p1|] in p2;
      }
    }
  }

  /** Every row of the three worksheets with a usable name is read. */
  lemma ExtractAllComplete(book: Workbook, aba: string, r: Row)
    requires aba in SheetOrder && aba in book && r in book[aba] && ExtractRow(r, aba).Some?
    ensures ExtractRow(r, aba).value in ExtractAll(book)
  {
    ExtractAllParts(book);
    PartComplete(book, aba, r);
  }

  /** The reading loop of the pass: the rows kept from each worksheet in turn,
      and how many there were. */
  method ReadWorkbook(book: Workbook) returns (all: seq<Extracted>, totalRecords: nat)
    ensures all == ExtractAll(book)
    ensures totalRecords == |all|
  {
    all := [];
    totalRecords := 0;
    var s := 0;
    while s < |SheetOrder|
      invariant 0 <= s <= |SheetOrder|
      invariant all == ExtractSheets(book, s)
      invariant totalRecords == |all|
    {
      var aba := SheetOrder[s];
      if aba in book {
        var kept := ReadSheet(book[aba], aba);
        all := all + kept;
        totalRecords := totalRecords + |kept|;
      }
      s := s + 1;
    }
  }

  /** The inner loop over one worksheet's records. */
  method ReadSheet(records: seq<Row>, aba: string) returns (kept: seq<Extracted>)
    ensures kept == ExtractRows(records, aba)
  {
    kept := [];
    var j := 0;
    while j < |records|
      invariant 0 <= j <= |records|
      invariant kept == ExtractRows(records[..j], aba)
    {
      assert records[..j + 1][..j] == records[..j];
      var x := ExtractRow(records[j], aba);
      if x.Some? {
        kept := kept + [x.value];
      }
      j := j + 1;
    }
    assert records[..j] == records;
  }

  // ---------------------------------------------------------------------------
  // Grouping by (name, sheet)

  /** The grouping key `f"{nome}|{aba}"`. */
  function KeyOf(nome: string, aba: string): string {
    nome + "|" + aba
  }

  /** `chave.split('|')` unpacked into two names; None when the split does not
      give exactly two fields (the unpacking raises). */
  function SplitKey(k: string): Option<(string, string)> {
    var parts := Split(k, '|');
    if |parts| == 2 then Some((parts[0], parts[1])) else None
  }

  /** The key of a sheet name without '|' splits back into its two parts exactly
      when the item name has no '|'. */
  lemma SplitKeyOf(nome: string, aba: string)
    requires '|' !in aba
    ensures SplitKey(KeyOf(nome, aba)) == if '|' in nome then None else Some((nome, aba))
  {
    var k := KeyOf(nome, aba);
    CountCharAppend(nome + "|", aba, '|');
    CountCharAppend(nome, "|", '|');
    assert CountChar("|", '|') == 1;
    CountCharZero(aba, '|');
    CountCharZero(nome, '|');
    SplitCount(k, '|');
    if '|' !in nome {
      assert Join([nome, aba], '|') == k;
      SplitJoin([nome, aba], '|');
    }
  }

  /** Two keys over sheet names without '|' are equal only for equal pairs. */
  lemma KeyOfInjective(n1: string, a1: string, n2: string, a2: string)
    requires '|' !in a1 && '|' !in a2
    requires KeyOf(n1, a1) == KeyOf(n2, a2)
    ensures n1 == n2 && a1 == a2
  {
    var k := KeyOf(n1, a1);
    var p1, p2 := |n1|, |n2|;
    assert k[p1] == '|' && k[p2] == '|';
    assert forall i :: p1 < i < |k| ==> k[i] == a1[i - p1 - 1];
    assert forall i :: p2 < i < |k| ==> k[i] == a2[i - p2 - 1];
    assert p1 == p2;
    assert a1 == k[p1 + 1..] == a2;
    assert n1 == k[..p1] == n2;
  }

  function KeyOfRow(x: Extracted): string {
    KeyOf(x.nome, x.abaOrigem)
  }

  /** The keys of the groups in order of first appearance (dict insertion order). */
  function GroupKeys(all: seq<Extracted>): seq<string> {
    if all == [] then []
    else
      var ks := GroupKeys(all[..|all| - 1]);
      var k := KeyOfRow(all[|all| - 1]);
      if k in ks then ks else ks + [k]
  }

  /** The rows of one group, in order. */
  function GroupOf(all: seq<Extracted>, k: string): (g: seq<Extracted>)
    ensures forall x :: x in g ==> x in all && KeyOfRow(x) == k
  {
    if all == [] then []
    else
      var init := GroupOf(all[..|all| - 1], k);
      var x := all[|all| - 1];
      assert all == all[..|all| - 1] + [x];
      if KeyOfRow(x) == k then init + [x] else init
  }

  /** The group keys are distinct, one per key occurring among the rows, and each
      group is non-empty and begins with the key's first row. */
  lemma {:induction false} GroupKeysSpec(all: seq<Extracted>)
    ensures forall i, j :: 0 <= i < j < |GroupKeys(all)| ==> GroupKeys(all)[i] != GroupKeys(all)[j]
    ensures forall x :: x in all ==> KeyOfRow(x) in GroupKeys(all)
    ensures forall k :: k in GroupKeys(all) ==>
      GroupOf(all, k) != [] && KeyOfRow(GroupOf(all, k)[0]) == k
  {
    if all != [] {
      var init := all[..|all| - 1];
      var x := all[|all| - 1];
      GroupKeysSpec(init);
      assert all == init + [x];
      var ks := GroupKeys(init);
      forall k | k in GroupKeys(all)
        ensures GroupOf(all, k) != [] && KeyOfRow(GroupOf(all, k)[0]) == k
      {
        if k !in ks {
          assert k == KeyOfRow(x);
          GroupOfAbsent(init, k);
        }
      }
    }
  }

  lemma {:induction false} GroupOfAbsent(all: seq<Extracted>, k: string)
    requires forall x :: x in all ==> KeyOfRow(x) != k
    ensures GroupOf(all, k) == []
  {
    if all != [] {
      var init := all[..|all| - 1];
      assert all == init + [all[|all| - 1]];
      GroupOfAbsent(init, k);
    }
  }

  /** The grouping loop: it fills the dictionary of groups in place. */
  method GroupRows(all: seq<Extracted>) returns (keys: seq<string>, groups: map<string, seq<Extracted>>)
    ensures keys == GroupKeys(all)
    ensures forall k :: k in groups <==> k in keys
    ensures forall k :: k in groups ==> groups[k] == GroupOf(all, k)
  {
    keys := [];
    groups := map[];
    var i := 0;
    while i < |all|
      invariant 0 <= i <= |all|
      invariant keys == GroupKeys(all[..i])
      invariant forall k :: k in groups <==> k in keys
      invariant forall k :: k in groups ==> groups[k] == GroupOf(all[..i], k)
    {
      var x := all[i];
      var chave := KeyOf(x.nome, x.abaOrigem);
      GroupRowsStep(all, i, keys, groups);
      var grupo := if chave in groups then groups[chave] else [];
      if chave !in groups {
        keys := keys + [chave];
      }
      groups := groups[chave := grupo + [x]];
      i := i + 1;
    }
    assert all[..i] == all;
  }

  /** One row of the grouping loop: a new key is appended to the keys and
      opens an empty group, and the row joins its key's group. */
  lemma GroupRowsStep(all: seq<Extracted>, i: int, keys: seq<string>,
                      groups: map<string, seq<Extracted>>)
    requires 0 <= i < |all|
    requires keys == GroupKeys(all[..i])
    requires forall k :: k in groups <==> k in keys
    requires forall k :: k in groups ==> groups[k] == GroupOf(all[..i], k)
    ensures var chave := KeyOf(all[i].nome, all[i].abaOrigem);
      var keys' := if chave in groups then keys else keys + [chave];
      var groups' := groups[chave := (if chave in groups then groups[chave] else []) + [all[i]]];
      keys' == GroupKeys(all[..i + 1])
      && (forall k :: k in groups' <==> k in keys')
      && (forall k :: k in groups' ==> groups'[k] == GroupOf(all[..i + 1], k))
  {
    var chave := KeyOf(all[i].nome, all[i].abaOrigem);
    assert all[..i + 1][..i] == all[..i];
    GroupKeysSpec(all[..i]);
    if chave !in groups {
      GroupOfAbsent(all[..i], chave);
    }
  }

  // ---------------------------------------------------------------------------
  // Per-group facts and the create/update decision

  /** The truthy codes of a group, in encounter order. */
  function Codes(grupo: seq<Extracted>): (cs: seq<string>)
    ensures forall c :: c in cs ==> c != ""
    ensures |cs| <= |grupo|
  {
    if grupo == [] then []
    else
      var init := Codes(grupo[..|grupo| - 1]);
      var c := grupo[|grupo| - 1].codigo;
      if Truthy(c) then init + [c.value] else init
  }

  /** The codes of two runs of rows are the codes of the first run followed
      by those of the second, and one row contributes its code exactly when
      the code is truthy: so the codes are every truthy code, in encounter
      order. */
  lemma {:induction false} CodesAppend(a: seq<Extracted>, b: seq<Extracted>)
    ensures Codes(a + b) == Codes(a) + Codes(b)
    decreases |b|
  {
    if b == [] {
      assert a + b == a;
    } else {
      var b' := b[..|b| - 1];
      assert (a + b)[..|a + b| - 1] == a + b';
      assert (a + b)[|a + b| - 1] == b[|b| - 1];
      CodesAppend(a, b');
    }
  }

  lemma CodesOfOne(x: Extracted)
    ensures Codes([x]) == if Truthy(x.codigo) then [x.codigo.value] else []
  {
    assert [x][..0] == [];
  }

  /** A code is among the group's codes exactly when some row of the group
      carries it as a truthy code. */
  lemma {:induction false} CodesMembers(grupo: seq<Extracted>, c: string)
    ensures c in Codes(grupo) <==>
      exists i :: 0 <= i < |grupo| && Truthy(grupo[i].codigo) && grupo[i].codigo.value == c
  {
    if grupo != [] {
      var init := grupo[..|grupo| - 1];
      CodesMembers(init, c);
      if exists i :: 0 <= i < |grupo| && Truthy(grupo[i].codigo) && grupo[i].codigo.value == c {
        var i :| 0 <= i < |grupo| && Truthy(grupo[i].codigo) && grupo[i].codigo.value == c;
        if i < |init| {
          assert init[i] == grupo[i];
        }
      }
      if exists i :: 0 <= i < |init| && Truthy(init[i].codigo) && init[i].codigo.value == c {
        var i :| 0 <= i < |init| && Truthy(init[i].codigo) && init[i].codigo.value == c;
        assert grupo[i] == init[i];
      }
    }
  }

  /** What the pass takes from a group: the first row's name, category and
      location, the group size as total, and the comma-joined codes. */
  datatype GroupFacts = GroupFacts(
    nome: string,
    categoria: Option<string>,
    localizacao: Option<string>,
    total: nat,
    codigos: string,
    abaOrigem: string)

  function FactsOf(grupo: seq<Extracted>, aba: string): (g: GroupFacts)
    requires grupo != []
    ensures g.total == |grupo| && g.abaOrigem == aba && g.nome == grupo[0].nome
    ensures (forall c :: c in Codes(grupo) ==> ',' !in c) ==>
      Split(g.codigos, ',') == if Codes(grupo) == [] then [""] else Codes(grupo)
  {
    var cs := Codes(grupo);
    var g := GroupFacts(grupo[0].nome, grupo[0].categoria, grupo[0].localizacao, |grupo|,
                        Join(cs, ','), aba);
    CodesRoundTrip(cs);
    g
  }

  /** Comma-joined codes without commas split back into the codes; no codes
      join to "", which splits into one empty field. */
  lemma CodesRoundTrip(cs: seq<string>)
    ensures (forall c :: c in cs ==> ',' !in c) ==>
      Split(Join(cs, ','), ',') == if cs == [] then [""] else cs
  {
    if |cs| >= 1 && forall c :: c in cs ==> ',' !in c {
      SplitJoin(cs, ',');
    }
  }

  /** The facts of every group, when every key splits; None when one does not. */
  function KeyedFacts(all: seq<Extracted>, ks: seq<string>): (r: Option<seq<GroupFacts>>)
    requires forall k :: k in ks ==> GroupOf(all, k) != []
    ensures r.Some? <==> forall k :: k in ks ==> SplitKey(k).Some?
    ensures r.Some? ==> |r.value| == |ks|
  {
    if forall k :: k in ks ==> SplitKey(k).Some? then
      Some(seq(|ks|, j requires 0 <= j < |ks| => FactsOf(GroupOf(all, ks[j]), SplitKey(ks[j]).value.1)))
    else None
  }

  /** fs holds the facts of the groups under the keys ks, each of which splits. */
  ghost predicate FactsFor(all: seq<Extracted>, ks: seq<string>, fs: seq<GroupFacts>) {
    |fs| == |ks|
    && forall j :: 0 <= j < |ks| ==>
         SplitKey(ks[j]).Some? && GroupOf(all, ks[j]) != []
         && fs[j] == FactsOf(GroupOf(all, ks[j]), SplitKey(ks[j]).value.1)
  }

  lemma KeyedFactsIs(all: seq<Extracted>, ks: seq<string>, fs: seq<GroupFacts>)
    requires FactsFor(all, ks, fs)
    ensures forall k :: k in ks ==> GroupOf(all, k) != []
    ensures KeyedFacts(all, ks) == Some(fs)
  {
    forall k | k in ks ensures GroupOf(all, k) != [] && SplitKey(k).Some? {
      var j :| 0 <= j < |ks| && ks[j] == k;
    }
    var r := KeyedFacts(all, ks).value;
    assert |r| == |fs|;
    forall j | 0 <= j < |fs| ensures r[j] == fs[j] {
    }
    assert r == fs;
  }

  lemma FactsForSnoc(all: seq<Extracted>, ks: seq<string>, fs: seq<GroupFacts>, k: string)
    requires FactsFor(all, ks, fs)
    requires SplitKey(k).Some? && GroupOf(all, k) != []
    ensures FactsFor(all, ks + [k], fs + [FactsOf(GroupOf(all, k), SplitKey(k).value.1)])
  {
    var ks', fs' := ks + [k], fs + [FactsOf(GroupOf(all, k), SplitKey(k).value.1)];
    forall j | 0 <= j < |ks'|
      ensures SplitKey(ks'[j]).Some? && GroupOf(all, ks'[j]) != []
        && fs'[j] == FactsOf(GroupOf(all, ks'[j]), SplitKey(ks'[j]).value.1)
    {
      if j < |ks| {
        assert ks'[j] == ks[j] && fs'[j] == fs[j];
      }
    }
  }

  lemma GroupsNonEmpty(all: seq<Extracted>)
    ensures forall k :: k in GroupKeys(all) ==> GroupOf(all, k) != []
  {
    GroupKeysSpec(all);
  }

  /** `max(2, int(total * 0.2))`: 20% of the total, rounded down, but at
      least 2. On integers `total * 0.2` truncates to `total / 5`. */
  function MinimumStock(total: nat): nat {
    if total / 5 > 2 then total / 5 else 2
  }

  /** What the pass does with one group. */
  datatype Action = Create(data: ItemData) | Update(id: int, data: ItemData) | Keep

  /** The decision for a group given the stored item found for it. A new item
      has everything available, nothing in use and a minimum stock of 20% of the
      total (at least 2). A changed total shifts the available count by the
      change and keeps the in-use count and minimum stock. With the total
      unchanged, only a different sheet tag causes a write, and that write keeps
      the quantities. */
  function Decide(existing: Option<StoredItem>, g: GroupFacts): (a: Action)
    ensures existing.None? ==>
      a.Create? && Balanced(a.data) && a.data.quantidadeTotal == g.total
      && a.data.quantidadeDisponivel == g.total && a.data.quantidadeEmUso == 0
      && a.data.estoqueMinimo >= 2 && g.total < 5 * (a.data.estoqueMinimo + 1)
      && (a.data.estoqueMinimo == 2 || 5 * a.data.estoqueMinimo <= g.total)
    ensures existing.Some? ==>
      var x := existing.value;
      (a.Keep? <==> x.data.quantidadeTotal == g.total && x.data.abaOrigem == g.abaOrigem)
      && (a.Update? ==>
            a.id == x.id && a.data.quantidadeTotal == g.total
            && a.data.quantidadeEmUso == x.data.quantidadeEmUso
            && a.data.estoqueMinimo == x.data.estoqueMinimo
            && a.data.quantidadeDisponivel + a.data.quantidadeEmUso - a.data.quantidadeTotal
               == x.data.quantidadeDisponivel + x.data.quantidadeEmUso - x.data.quantidadeTotal
            && (x.data.quantidadeTotal == g.total ==> a.data.quantidadeDisponivel == x.data.quantidadeDisponivel))
      && !a.Create?
    ensures !a.Keep? ==>
      a.data.nome == g.nome && a.data.abaOrigem == g.abaOrigem && a.data.codigosOriginais == g.codigos
      && a.data.categoria == g.categoria && a.data.localizacao == g.localizacao
  {
    match existing
    case None =>
      Create(ItemData(g.nome, g.categoria, g.localizacao, g.total, g.total, 0,
                      MinimumStock(g.total), g.codigos, g.abaOrigem))
    case Some(x) =>
      if x.data.quantidadeTotal != g.total then
        var diferenca := g.total - x.data.quantidadeTotal;
        Update(x.id, ItemData(g.nome, g.categoria, g.localizacao, g.total,
                              x.data.quantidadeDisponivel + diferenca, x.data.quantidadeEmUso,
                              x.data.estoqueMinimo, g.codigos, g.abaOrigem))
      else if x.data.abaOrigem != g.abaOrigem then
        Update(x.id, ItemData(g.nome, g.categoria, g.localizacao, g.total,
                              x.data.quantidadeDisponivel, x.data.quantidadeEmUso,
                              x.data.estoqueMinimo, g.codigos, g.abaOrigem))
      else Keep
  }

  /** Under the exact-match lookup this model assumes for
      `get_item_by_name_and_aba` (that method is not part of the database
      service shown), the sheet-tag branch cannot fire: the stored item is
      looked up by name and sheet, so its sheet tag equals the group's. A
      lookup that also returned rows with another tag would reach it. */
  lemma SheetTagBranchUnreachable(t: Tables, g: GroupFacts)
    requires TablesValid(t)
    ensures var found := FindByNameAndAba(t, g.nome, g.abaOrigem);
      found.Some? && found.value.data.quantidadeTotal == g.total ==> Decide(found, g).Keep?
  {
    FindByNameAndAbaSpec(t, g.nome, g.abaOrigem);
  }

  /** One group's step: look the item up, decide, write, count. */
  function Step(acc: (Tables, nat, nat), g: GroupFacts): (r: (Tables, nat, nat))
    requires TablesValid(acc.0)
    ensures TablesValid(r.0)
    ensures r.1 + r.2 <= acc.1 + acc.2 + 1
  {
    var t := acc.0;
    match Decide(FindByNameAndAba(t, g.nome, g.abaOrigem), g)
    case Create(d) => (Upsert(t, d, None).0, acc.1 + 1, acc.2)
    case Update(id, d) => (Upsert(t, d, Some(id)).0, acc.1, acc.2 + 1)
    case Keep => acc
  }

  /** The whole pass over the groups, in order: the resulting table and the
      counts of new and updated items. */
  function Reconcile(t: Tables, gs: seq<GroupFacts>): (r: (Tables, nat, nat))
    requires TablesValid(t)
    ensures TablesValid(r.0)
    ensures r.1 + r.2 <= |gs|
  {
    if gs == [] then (t, 0, 0)
    else Step(Reconcile(t, gs[..|gs| - 1]), gs[|gs| - 1])
  }

  lemma PrefixSnoc<T>(s: seq<T>, i: nat)
    requires i < |s|
    ensures s[..i + 1] == s[..i] + [s[i]]
  {
  }

  lemma ReconcileSnoc(t: Tables, gs: seq<GroupFacts>, g: GroupFacts)
    requires TablesValid(t)
    ensures Reconcile(t, gs + [g]) == Step(Reconcile(t, gs), g)
  {
    assert (gs + [g])[..|gs|] == gs;
  }

  // ---------------------------------------------------------------------------
  // Properties of the pass

  /** The ledger equation on every row (available is not clamped, so the counts
      themselves may go negative when a total shrinks). */
  predicate Ledgered(t: Tables) {
    forall id :: id in t.items ==>
      t.items[id].quantidadeDisponivel + t.items[id].quantidadeEmUso == t.items[id].quantidadeTotal
  }

  lemma StepLedgered(acc: (Tables, nat, nat), g: GroupFacts)
    requires TablesValid(acc.0) && Ledgered(acc.0)
    ensures Ledgered(Step(acc, g).0)
  {
    var t := acc.0;
    var found := FindByNameAndAba(t, g.nome, g.abaOrigem);
    FindByNameAndAbaSpec(t, g.nome, g.abaOrigem);
    var a := Decide(found, g);
    var t' := Step(acc, g).0;
    forall id | id in t'.items
      ensures t'.items[id].quantidadeDisponivel + t'.items[id].quantidadeEmUso == t'.items[id].quantidadeTotal
    {
      if a.Update? && id == a.id {
        assert found.value.id in t.items;
      }
    }
  }

  /** Reconciliation keeps available + in-use == total on every row. */
  lemma {:induction false} ReconcileLedgered(t: Tables, gs: seq<GroupFacts>)
    requires TablesValid(t) && Ledgered(t)
    ensures Ledgered(Reconcile(t, gs).0)
  {
    if gs != [] {
      ReconcileLedgered(t, gs[..|gs| - 1]);
      StepLedgered(Reconcile(t, gs[..|gs| - 1]), gs[|gs| - 1]);
    }
  }

  /** Rows that existed before the pass still exist and keep their in-use count
      and minimum stock. */
  lemma {:induction false} ReconcileKeepsInUse(t: Tables, gs: seq<GroupFacts>)
    requires TablesValid(t)
    ensures forall id :: id in t.items ==>
      id in Reconcile(t, gs).0.items
      && Reconcile(t, gs).0.items[id].quantidadeEmUso == t.items[id].quantidadeEmUso
      && Reconcile(t, gs).0.items[id].estoqueMinimo == t.items[id].estoqueMinimo
  {
    if gs != [] {
      var acc := Reconcile(t, gs[..|gs| - 1]);
      ReconcileKeepsInUse(t, gs[..|gs| - 1]);
      var g := gs[|gs| - 1];
      var found := FindByNameAndAba(acc.0, g.nome, g.abaOrigem);
      FindByNameAndAbaSpec(acc.0, g.nome, g.abaOrigem);
    }
  }

  /** The stored item for g carries g's total. */
  predicate Settled(t: Tables, g: GroupFacts) {
    var found := FindByNameAndAba(t, g.nome, g.abaOrigem);
    found.Some? && found.value.data.quantidadeTotal == g.total
  }

  /** A step for one group leaves the lookup of every other (name, sheet) pair
      unchanged. */
  lemma StepFrame(acc: (Tables, nat, nat), g: GroupFacts, nome: string, aba: string)
    requires TablesValid(acc.0)
    requires (nome, aba) != (g.nome, g.abaOrigem)
    ensures FindByNameAndAba(Step(acc, g).0, nome, aba) == FindByNameAndAba(acc.0, nome, aba)
  {
    var t := acc.0;
    var found := FindByNameAndAba(t, g.nome, g.abaOrigem);
    FindByNameAndAbaSpec(t, g.nome, g.abaOrigem);
    var t' := Step(acc, g).0;
    match Decide(found, g)
    case Create(d) =>
      var n := t.nextItemId;
      assert t'.items == t.items[n := d] && t'.nextItemId == n + 1;
      ScanExtend(t'.items, nome, aba, 1, n, n + 1);
      ScanFrame(t'.items, t.items, nome, aba, 1, n);
    case Update(id, d) =>
      assert t'.items == t.items[id := d] && t'.nextItemId == t.nextItemId;
      ScanFrame(t'.items, t.items, nome, aba, 1, t.nextItemId);
    case Keep =>
  }

  /** After a group's step, that group is settled. */
  lemma StepSettles(acc: (Tables, nat, nat), g: GroupFacts)
    requires TablesValid(acc.0)
    ensures Settled(Step(acc, g).0, g)
  {
    var t := acc.0;
    var found := FindByNameAndAba(t, g.nome, g.abaOrigem);
    FindByNameAndAbaSpec(t, g.nome, g.abaOrigem);
    var t' := Step(acc, g).0;
    FindByNameAndAbaSpec(t', g.nome, g.abaOrigem);
    match Decide(found, g)
    case Create(d) =>
      var n := t.nextItemId;
      assert t'.items == t.items[n := d];
      assert HasKey(t'.items[n], g.nome, g.abaOrigem);
      assert forall k :: k in t'.items && k != n ==> k in t.items && t'.items[k] == t.items[k];
    case Update(id, d) =>
      assert t'.items == t.items[id := d];
      assert HasKey(t'.items[id], g.nome, g.abaOrigem);
      assert forall k :: k in t'.items && k != id ==> k in t.items && t'.items[k] == t.items[k];
    case Keep =>
  }

  /** No two groups share a (name, sheet) pair. */
  predicate DistinctKeys(gs: seq<GroupFacts>) {
    forall i, j :: 0 <= i < j < |gs| ==> (gs[i].nome, gs[i].abaOrigem) != (gs[j].nome, gs[j].abaOrigem)
  }

  /** After a pass over groups with distinct keys, every group is settled. */
  lemma {:induction false} ReconcileSettles(t: Tables, gs: seq<GroupFacts>)
    requires TablesValid(t) && DistinctKeys(gs)
    ensures forall g :: g in gs ==> Settled(Reconcile(t, gs).0, g)
  {
    if gs != [] {
      var init := gs[..|gs| - 1];
      var last := gs[|gs| - 1];
      assert DistinctKeys(init);
      ReconcileSettles(t, init);
      var acc := Reconcile(t, init);
      StepSettles(acc, last);
      forall g | g in gs ensures Settled(Step(acc, last).0, g) {
        if g != last {
          var i :| 0 <= i < |gs| && gs[i] == g;
          assert i < |gs| - 1;
          assert g in init;
          StepFrame(acc, last, g.nome, g.abaOrigem);
        }
      }
    }
  }

  /** A pass over groups that are all settled writes nothing and counts nothing. */
  lemma {:induction false} SettledPassIsNoOp(t: Tables, gs: seq<GroupFacts>)
    requires TablesValid(t)
    requires forall g :: g in gs ==> Settled(t, g)
    ensures Reconcile(t, gs) == (t, 0, 0)
  {
    if gs != [] {
      var init, last := gs[..|gs| - 1], gs[|gs| - 1];
      assert forall g :: g in init ==> g in gs;
      SettledPassIsNoOp(t, init);
      assert last in gs;
      SheetTagBranchUnreachable(t, last);
    }
  }

  /** Running the pass again on the same groups changes nothing and reports zero
      new and zero updated items. */
  lemma ReconcileRerun(t: Tables, gs: seq<GroupFacts>)
    requires TablesValid(t) && DistinctKeys(gs)
    ensures Reconcile(Reconcile(t, gs).0, gs) == (Reconcile(t, gs).0, 0, 0)
  {
    ReconcileSettles(t, gs);
    SettledPassIsNoOp(Reconcile(t, gs).0, gs);
  }

  /** No row's sheet tag contains '|'. */
  predicate SheetTagsWithoutBar(all: seq<Extracted>) {
    forall x :: x in all ==> '|' !in x.abaOrigem
  }

  /** The pass fails on a key exactly when some row's name contains '|'. */
  lemma KeyedFactsIffNoBar(all: seq<Extracted>)
    requires SheetTagsWithoutBar(all)
    ensures forall k :: k in GroupKeys(all) ==> GroupOf(all, k) != []
    ensures KeyedFacts(all, GroupKeys(all)).Some? <==> forall x :: x in all ==> '|' !in x.nome
  {
    var keys := GroupKeys(all);
    GroupKeysSpec(all);
    forall k | k in keys ensures SplitKey(k).Some? <==> '|' !in GroupOf(all, k)[0].nome {
      var x := GroupOf(all, k)[0];
      SplitKeyOf(x.nome, x.abaOrigem);
    }
    forall x | x in all ensures SplitKey(KeyOfRow(x)).Some? <==> '|' !in x.nome {
      SplitKeyOf(x.nome, x.abaOrigem);
    }
  }

  /** The groups have distinct (name, sheet) pairs. */
  lemma KeyedFactsDistinct(all: seq<Extracted>)
    requires SheetTagsWithoutBar(all)
    requires forall k :: k in GroupKeys(all) ==> GroupOf(all, k) != []
    ensures KeyedFacts(all, GroupKeys(all)).Some? ==> DistinctKeys(KeyedFacts(all, GroupKeys(all)).value)
  {
    var keys := GroupKeys(all);
    GroupKeysSpec(all);
    var r := KeyedFacts(all, keys);
    if r.Some? {
      var fs := r.value;
      forall i, j | 0 <= i < j < |fs|
        ensures (fs[i].nome, fs[i].abaOrigem) != (fs[j].nome, fs[j].abaOrigem)
      {
        var xi := GroupOf(all, keys[i])[0];
        var xj := GroupOf(all, keys[j])[0];
        SplitKeyOf(xi.nome, xi.abaOrigem);
        SplitKeyOf(xj.nome, xj.abaOrigem);
        assert keys[i] != keys[j];
      }
    }
  }

  /** For the rows of a workbook: every group is non-empty, the pass fails on a
      key exactly when some row's name contains '|', and otherwise the groups
      have distinct (name, sheet) pairs. */
  lemma WorkbookFacts(book: Workbook)
    ensures forall k :: k in GroupKeys(ExtractAll(book)) ==> GroupOf(ExtractAll(book), k) != []
    ensures KeyedFacts(ExtractAll(book), GroupKeys(ExtractAll(book))).Some?
      <==> forall x :: x in ExtractAll(book) ==> '|' !in x.nome
    ensures KeyedFacts(ExtractAll(book), GroupKeys(ExtractAll(book))).Some? ==>
      DistinctKeys(KeyedFacts(ExtractAll(book), GroupKeys(ExtractAll(book))).value)
  {
    var all := ExtractAll(book);
    ExtractAllSpec(book);
    assert forall a :: a in SheetOrder ==> '|' !in a;
    KeyedFactsIffNoBar(all);
    KeyedFactsDistinct(all);
  }

  // ---------------------------------------------------------------------------
  // The pass itself

  datatype SyncSummary = SyncSummary(
    registrosLidos: nat, itensUnicos: nat, itemsNovos: nat, itemsAtualizados: nat)

  /** `{"success": False, ...}` when no row survives, else the summary. */
  datatype SyncOutcome = NoItems | Synced(summary: SyncSummary)

  /** The unpacking of a key that does not split into two fields raises; the
      exception is re-raised to the caller. */
  datatype SyncError = MalformedKey(key: string)

  /** `sync_from_sheets`: reads the three worksheets, groups the rows, and
      creates or updates one item per group. Groups before a malformed key have
      already been written when the error is raised. */
  method SyncFromSheets(db: Database, book: Workbook) returns (r: Result<SyncOutcome, SyncError>)
    requires db.Valid()
    modifies db
    ensures db.Valid()
    ensures db.transactions == old(db.transactions) && db.usage == old(db.usage)
    ensures db.nextTransactionId == old(db.nextTransactionId)
    ensures ExtractAll(book) == [] ==>
      r == Ok(NoItems) && db.items == old(db.items) && db.nextItemId == old(db.nextItemId)
    ensures ExtractAll(book) != [] ==>
      var all := ExtractAll(book);
      var keys := GroupKeys(all);
      (forall k :: k in keys ==> GroupOf(all, k) != [])
      && (r.Ok? <==> KeyedFacts(all, keys).Some?)
      && (r.Ok? ==>
            var res := Reconcile(old(db.ItemTables()), KeyedFacts(all, keys).value);
            r.value == Synced(SyncSummary(|all|, |keys|, res.1, res.2)) && db.ItemTables() == res.0)
      && (r.Err? ==>
            exists j :: 0 <= j < |keys| && keys[j] == r.error.key && SplitKey(keys[j]).None?
              && KeyedFacts(all, keys[..j]).Some?
              && db.ItemTables() == Reconcile(old(db.ItemTables()), KeyedFacts(all, keys[..j]).value).0)
  {
    var all, totalRecords := ReadWorkbook(book);
    if all == [] {
      return Ok(NoItems);
    }
    var keys, groups := GroupRows(all);
    GroupsNonEmpty(all);
    r := SyncKeys(db, all, keys, groups, totalRecords);
  }

  /** The per-group loop of `sync_from_sheets`, over the keys in first-seen
      order; stops at the first key that does not split into name and sheet. */
  method SyncKeys(db: Database, all: seq<Extracted>, keys: seq<string>,
                  groups: map<string, seq<Extracted>>, totalRecords: nat)
    returns (r: Result<SyncOutcome, SyncError>)
    requires db.Valid()
    requires forall k :: k in groups <==> k in keys
    requires forall k :: k in groups ==> groups[k] == GroupOf(all, k)
    requires forall k :: k in keys ==> GroupOf(all, k) != []
    modifies db
    ensures db.Valid()
    ensures db.transactions == old(db.transactions) && db.usage == old(db.usage)
    ensures db.nextTransactionId == old(db.nextTransactionId)
    ensures r.Ok? <==> KeyedFacts(all, keys).Some?
    ensures r.Ok? ==>
      var res := Reconcile(old(db.ItemTables()), KeyedFacts(all, keys).value);
      r.value == Synced(SyncSummary(totalRecords, |keys|, res.1, res.2)) && db.ItemTables() == res.0
    ensures r.Err? ==>
      exists j :: 0 <= j < |keys| && keys[j] == r.error.key && SplitKey(keys[j]).None?
        && KeyedFacts(all, keys[..j]).Some?
        && db.ItemTables() == Reconcile(old(db.ItemTables()), KeyedFacts(all, keys[..j]).value).0
  {
    ghost var t0 := db.ItemTables();
    var stop, itemsNovos, itemsAtualizados, facts := SyncLoop(db, all, keys, groups);
    KeyedFactsIs(all, keys[..stop], facts);
    if stop < |keys| {
      assert keys[stop] in keys;
      return Err(MalformedKey(keys[stop]));
    }
    assert keys[..stop] == keys;
    return Ok(Synced(SyncSummary(totalRecords, |keys|, itemsNovos, itemsAtualizados)));
  }

  /** The loop itself: it syncs the groups in key order and stops before the
      first key that does not split, or after the last key. */
  method SyncLoop(db: Database, all: seq<Extracted>, keys: seq<string>,
                  groups: map<string, seq<Extracted>>)
    returns (stop: nat, itemsNovos: nat, itemsAtualizados: nat, ghost facts: seq<GroupFacts>)
    requires db.Valid()
    requires forall k :: k in groups <==> k in keys
    requires forall k :: k in groups ==> groups[k] == GroupOf(all, k)
    requires forall k :: k in keys ==> GroupOf(all, k) != []
    modifies db
    ensures db.Valid()
    ensures db.transactions == old(db.transactions) && db.usage == old(db.usage)
    ensures db.nextTransactionId == old(db.nextTransactionId)
    ensures stop <= |keys| && (stop == |keys| || SplitKey(keys[stop]).None?)
    ensures FactsFor(all, keys[..stop], facts)
    ensures (db.ItemTables(), itemsNovos, itemsAtualizados) == Reconcile(old(db.ItemTables()), facts)
  {
    ghost var t0 := db.ItemTables();
    facts := [];
    itemsNovos, itemsAtualizados := 0, 0;
    stop := 0;
    while stop < |keys| && SplitKey(keys[stop]).Some?
      invariant 0 <= stop <= |keys|
      invariant db.Valid()
      invariant db.transactions == old(db.transactions) && db.usage == old(db.usage)
      invariant db.nextTransactionId == old(db.nextTransactionId)
      invariant FactsFor(all, keys[..stop], facts)
      invariant (db.ItemTables(), itemsNovos, itemsAtualizados) == Reconcile(t0, facts)
    {
      var chave := keys[stop];
      var abaOrigem := SplitKey(chave).value.1;
      assert chave in keys;
      var grupo := groups[chave];
      assert grupo == GroupOf(all, chave);
      ghost var g := FactsOf(grupo, abaOrigem);
      itemsNovos, itemsAtualizados := SyncGroup(db, grupo, abaOrigem, itemsNovos, itemsAtualizados);
      ReconcileSnoc(t0, facts, g);
      FactsForSnoc(all, keys[..stop], facts, chave);
      PrefixSnoc(keys, stop);
      facts := facts + [g];
      stop := stop + 1;
    }
  }

  /** The body of the per-group loop: look the stored item up by name and
      sheet, then update it, create it or leave it, and count what was done. */
  method SyncGroup(db: Database, grupo: seq<Extracted>, abaOrigem: string, novos: nat, atualizados: nat)
    returns (itemsNovos: nat, itemsAtualizados: nat)
    requires db.Valid() && grupo != []
    modifies db
    ensures db.Valid()
    ensures db.transactions == old(db.transactions) && db.usage == old(db.usage)
    ensures db.nextTransactionId == old(db.nextTransactionId)
    ensures (db.ItemTables(), itemsNovos, itemsAtualizados)
         == Step((old(db.ItemTables()), novos, atualizados), FactsOf(grupo, abaOrigem))
  {
    itemsNovos, itemsAtualizados := novos, atualizados;
    var quantidadeTotal := |grupo|;
    var codigos := Codes(grupo);
    var primeiro := grupo[0];
    var nome := primeiro.nome;
    var existente := db.GetItemByNameAndAba(nome, abaOrigem);
    if existente.Some? {
      var x := existente.value.data;
      if x.quantidadeTotal != quantidadeTotal {
        var diferenca := quantidadeTotal - x.quantidadeTotal;
        var itemData := ItemData(nome, primeiro.categoria, primeiro.localizacao, quantidadeTotal,
                                 x.quantidadeDisponivel + diferenca, x.quantidadeEmUso,
                                 x.estoqueMinimo, Join(codigos, ','), abaOrigem);
        var _ := db.UpsertItem(itemData, Some(existente.value.id));
        itemsAtualizados := itemsAtualizados + 1;
      } else if x.abaOrigem != abaOrigem {
        // The sheet-tag rewrite: under the assumed exact-match lookup the
        // stored item carries this very sheet tag, so the branch is not taken
        // here (see SheetTagBranchUnreachable).
        assert false;
      }
    } else {
      var itemData := ItemData(nome, primeiro.categoria, primeiro.localizacao, quantidadeTotal,
                               quantidadeTotal, 0, MinimumStock(quantidadeTotal),
                               Join(codigos, ','), abaOrigem);
      var _ := db.UpsertItem(itemData, None);
      itemsNovos := itemsNovos + 1;
    }
  }
}
