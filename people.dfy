/**
 * The people worksheet of the spreadsheet service (`get_slack_user_mapping`):
 * person name to Slack user. The records are an input; reading the worksheet is
 * not modelled.
 */
module PeopleSheet {
  import opened Wrappers
  import Validators
  import opened Sheets

  /** `record.get(k, '')`. */
  function Cell(r: Row, k: string): string {
    if k in r then r[k] else ""
  }

  /** The entry a people-sheet row contributes: the normalised name and the
      Slack username, or the user id when there is no username; None when
      either side is empty. */
  function MappingEntry(r: Row): Option<(string, string)> {
    var nome := Validators.NormalizeName(Cell(r, "Nome"));
    var slackUser := if Cell(r, "Slack_Username") != "" then Cell(r, "Slack_Username")
                     else Cell(r, "Slack_User_ID");
    if nome != "" && slackUser != "" then Some((nome, slackUser)) else None
  }

  /** The mapping built from a sequence of entries in order; later entries
      overwrite earlier ones. */
  function Fold(es: seq<Option<(string, string)>>): map<string, string> {
    if es == [] then map[]
    else
      var m := Fold(es[..|es| - 1]);
      match es[|es| - 1]
      case None => m
      case Some(e) => m[e.0 := e.1]
  }

  /** The entries of the rows, in order. */
  function Entries(rows: seq<Row>): (es: seq<Option<(string, string)>>)
    ensures |es| == |rows|
    ensures forall i :: 0 <= i < |rows| ==> es[i] == MappingEntry(rows[i])
  {
    seq(|rows|, i requires 0 <= i < |rows| => MappingEntry(rows[i]))
  }

  /** The mapping of the people sheet's rows. */
  function MappingOf(rows: seq<Row>): map<string, string> {
    Fold(Entries(rows))
  }

  /** A row's entry pairs a non-empty normalised name with a non-empty user. */
  lemma MappingEntrySpec(r: Row)
    ensures MappingEntry(r).Some? ==> MappingEntry(r).value.0 != "" && MappingEntry(r).value.1 != ""
    ensures MappingEntry(r).Some? ==>
      Validators.NormalizeName(MappingEntry(r).value.0) == MappingEntry(r).value.0
  {
    var n := Cell(r, "Nome");
    Validators.NormalizeNameIdempotent(n);
    var e := MappingEntry(r);
    assert e.Some? ==> e.value.0 == Validators.NormalizeName(n);
  }

  predicate WellFormedEntry(e: Option<(string, string)>) {
    e.Some? ==> e.value.0 != "" && e.value.1 != "" && Validators.NormalizeName(e.value.0) == e.value.0
  }

  lemma {:induction false} FoldWellFormed(es: seq<Option<(string, string)>>)
    requires forall i :: 0 <= i < |es| ==> WellFormedEntry(es[i])
    ensures forall k :: k in Fold(es) ==>
      k != "" && Fold(es)[k] != "" && Validators.NormalizeName(k) == k
  {
    if es != [] {
      FoldWellFormed(es[..|es| - 1]);
      assert WellFormedEntry(es[|es| - 1]);
    }
  }

  /** Every key is a non-empty normalised name mapped to a non-empty user. */
  lemma MappingOfWellFormed(rows: seq<Row>)
    ensures forall k :: k in MappingOf(rows) ==>
      k != "" && MappingOf(rows)[k] != "" && Validators.NormalizeName(k) == k
  {
    var es := Entries(rows);
    forall i | 0 <= i < |es| ensures WellFormedEntry(es[i]) {
      MappingEntrySpec(rows[i]);
    }
    FoldWellFormed(es);
  }

  predicate Yields(es: seq<Option<(string, string)>>, i: int, k: string)
    requires 0 <= i < |es|
  {
    es[i].Some? && es[i].value.0 == k
  }

  lemma {:induction false} FoldDomain(es: seq<Option<(string, string)>>, k: string)
    ensures k in Fold(es) <==> exists i :: 0 <= i < |es| && Yields(es, i, k)
  {
    if es != [] {
      var init := es[..|es| - 1];
      FoldDomain(init, k);
      if Yields(es, |es| - 1, k) {
        assert k in Fold(es);
      }
      if exists i :: 0 <= i < |init| && Yields(init, i, k) {
        var i :| 0 <= i < |init| && Yields(init, i, k);
        assert Yields(es, i, k);
      }
      if exists i :: 0 <= i < |es| && Yields(es, i, k) {
        var i :| 0 <= i < |es| && Yields(es, i, k);
        if i < |init| {
          assert Yields(init, i, k);
        }
      }
    }
  }

  lemma {:induction false} FoldLastWins(es: seq<Option<(string, string)>>, i: int)
    requires 0 <= i < |es| && es[i].Some?
    requires forall j :: i < j < |es| ==> !Yields(es, j, es[i].value.0)
    ensures es[i].value.0 in Fold(es) && Fold(es)[es[i].value.0] == es[i].value.1
  {
    var init := es[..|es| - 1];
    if i < |init| {
      forall j | i < j < |init| ensures !Yields(init, j, init[i].value.0) {
        assert !Yields(es, j, es[i].value.0);
      }
      FoldLastWins(init, i);
      assert !Yields(es, |es| - 1, es[i].value.0);
    }
  }

  /** A name is in the mapping exactly when some row yields it. */
  lemma MappingOfDomain(rows: seq<Row>, k: string)
    ensures k in MappingOf(rows) <==>
      exists i :: 0 <= i < |rows| && MappingEntry(rows[i]).Some? && MappingEntry(rows[i]).value.0 == k
  {
    var es := Entries(rows);
    FoldDomain(es, k);
    if exists i :: 0 <= i < |es| && Yields(es, i, k) {
      var i :| 0 <= i < |es| && Yields(es, i, k);
      assert MappingEntry(rows[i]).Some? && MappingEntry(rows[i]).value.0 == k;
    }
    if exists i :: 0 <= i < |rows| && MappingEntry(rows[i]).Some? && MappingEntry(rows[i]).value.0 == k {
      var i :| 0 <= i < |rows| && MappingEntry(rows[i]).Some? && MappingEntry(rows[i]).value.0 == k;
      assert Yields(es, i, k);
    }
  }

  /** A name maps to the user of the last row that yields it: later rows
      overwrite earlier ones. */
  lemma MappingOfLastWins(rows: seq<Row>, i: int)
    requires 0 <= i < |rows| && MappingEntry(rows[i]).Some?
    requires forall j :: i < j < |rows| ==>
      MappingEntry(rows[j]).None? || MappingEntry(rows[j]).value.0 != MappingEntry(rows[i]).value.0
    ensures MappingEntry(rows[i]).value.0 in MappingOf(rows)
    ensures MappingOf(rows)[MappingEntry(rows[i]).value.0] == MappingEntry(rows[i]).value.1
  {
    var es := Entries(rows);
    forall j | i < j < |es| ensures !Yields(es, j, es[i].value.0) {
    }
    FoldLastWins(es, i);
  }

  /** `get_slack_user_mapping`: the mapping of the people sheet; an empty map
      when the sheet is missing or reading it fails (None). */
  method GetSlackUserMapping(people: Option<seq<Row>>) returns (mapping: map<string, string>)
    ensures people.None? ==> mapping == map[]
    ensures people.Some? ==> mapping == MappingOf(people.value)
  {
    mapping := map[];
    if people.None? {
      return;
    }
    var records := people.value;
    ghost var es := Entries(records);
    var i := 0;
    while i < |records|
      invariant 0 <= i <= |records|
      invariant mapping == Fold(es[..i])
    {
      assert es[..i + 1][..i] == es[..i];
      var record := records[i];
      var nome := Validators.NormalizeName(Cell(record, "Nome"));
      var slackUser := Cell(record, "Slack_Username");
      if slackUser == "" {
        slackUser := Cell(record, "Slack_User_ID");
      }
      if nome != "" && slackUser != "" {
        mapping := mapping[nome := slackUser];
      }
      i := i + 1;
    }
    assert es[..i] == es;
  }
}
