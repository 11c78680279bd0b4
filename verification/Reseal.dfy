/**
Key rotation (packages/schema/src/reseal.ts): one pass over the flock table brings every stored
credential under the current key.
*/
module Reseal {
  import opened Prelude
  import opened Sealed

  datatype Row = Row(id: Uuid, orgId: Uuid, name: string, value: Option<string>)

  datatype Unreadable = Unreadable(id: Uuid, name: string, reason: UnsealReason)

  datatype Report = Report(sealed: nat, resealed: nat, unreadable: seq<Unreadable>)

  predicate DistinctIds(rows: seq<Row>) {
    forall i, j :: 0 <= i < j < |rows| ==> rows[i].id != rows[j].id
  }

  /** `UPDATE flock SET upstream_auth_enc = value WHERE id = id`. */
  function Update(rows: seq<Row>, id: Uuid, value: string): seq<Row> {
    seq(|rows|, i requires 0 <= i < |rows| => if rows[i].id == id then rows[i].(value := Some(value)) else rows[i])
  }

  // ---- What a row means ----

  /** What a row holds: nothing, a legacy plaintext, or what its envelope opens to under the ring. */
  function Meaning(c: Crypto, ring: Keyring, row: Row): Option<Opened> {
    match row.value
    case None => None
    case Some(v) => Some(if IsSealed(v) then OpenSealed(c, v, ring, row.orgId, row.id) else Plaintext(v))
  }

  predicate Reported(c: Crypto, ring: Keyring, row: Row) {
    var m := Meaning(c, ring, row);
    m.Some? && m.value.Unsealed?
  }

  predicate Legacy(row: Row) {
    row.value.Some? && !IsSealed(row.value.value)
  }

  /** Sealed under a previous key that the ring holds. */
  predicate Moved(c: Crypto, ring: Keyring, row: Row) {
    row.value.Some? && IsSealed(row.value.value) && !Reported(c, ring, row) && NeedsReseal(row.value.value, ring)
  }

  function Complaint(c: Crypto, ring: Keyring, row: Row): Unreadable
    requires Reported(c, ring, row)
  {
    Unreadable(row.id, row.name, Meaning(c, ring, row).value.reason)
  }

  // ---- The pass, row by row ----

  function ResealedRow(c: Crypto, ring: Keyring, row: Row, iv: string): Row {
    if Legacy(row) || Moved(c, ring, row) then
      row.(value := Some(Seal(c, Meaning(c, ring, row).value.text, ring, row.orgId, row.id, iv)))
    else row
  }

  function Tally(c: Crypto, ring: Keyring, report: Report, row: Row): Report {
    if Legacy(row) then report.(sealed := report.sealed + 1)
    else if Moved(c, ring, row) then report.(resealed := report.resealed + 1)
    else if Reported(c, ring, row) then report.(unreadable := report.unreadable + [Complaint(c, ring, row)])
    else report
  }

  function ReportOf(c: Crypto, ring: Keyring, rows: seq<Row>): Report {
    if rows == [] then Report(0, 0, [])
    else Tally(c, ring, ReportOf(c, ring, rows[..|rows| - 1]), rows[|rows| - 1])
  }

  /** The table after a pass that draws `ivs[i]` for row `i`. */
  predicate Resealed(c: Crypto, ring: Keyring, before: seq<Row>, after: seq<Row>, ivs: seq<string>) {
    && |after| == |before| == |ivs|
    && forall i :: 0 <= i < |before| ==> after[i] == ResealedRow(c, ring, before[i], ivs[i])
  }

  predicate GoodIvs(ivs: seq<string>) {
    forall i :: 0 <= i < |ivs| ==> IsIv(ivs[i])
  }

  /** The table once one selected row has been dealt with. */
  function AfterOne(rows: seq<Row>, c: Crypto, ring: Keyring, row: Row, iv: string): seq<Row> {
    if Legacy(row) || Moved(c, ring, row) then Update(rows, row.id, ResealedRow(c, ring, row, iv).value.value) else rows
  }

  /** The first `n` rows are resealed and the others are as they were selected. */
  predicate Partly(c: Crypto, ring: Keyring, before: seq<Row>, rows: seq<Row>, ivs: seq<string>, n: nat) {
    && |rows| == |before| == |ivs|
    && forall i :: 0 <= i < |rows| ==> rows[i] == if i < n then ResealedRow(c, ring, before[i], ivs[i]) else before[i]
  }

  lemma {:induction false} PartlyStep(c: Crypto, ring: Keyring, before: seq<Row>, rows: seq<Row>, ivs: seq<string>, n: nat)
    requires DistinctIds(before) && Partly(c, ring, before, rows, ivs, n) && n < |before|
    ensures Partly(c, ring, before, AfterOne(rows, c, ring, before[n], ivs[n]), ivs, n + 1)
  {
    var after := AfterOne(rows, c, ring, before[n], ivs[n]);
    forall i | 0 <= i < |rows|
      ensures after[i] == if i < n + 1 then ResealedRow(c, ring, before[i], ivs[i]) else before[i]
    {
      assert rows[i].id == before[i].id && (i != n ==> before[i].id != before[n].id);
    }
  }

  class FlockTable {
    var rows: seq<Row>

    constructor (rows: seq<Row>)
      ensures this.rows == rows
    {
      this.rows := rows;
    }

    /** The body of the loop of `resealUpstreamAuth`. */
    method ResealOne(c: Crypto, ring: Keyring, row: Row, iv: string, before: Report) returns (report: Report)
      modifies this
      ensures rows == AfterOne(old(rows), c, ring, row, iv)
      ensures report == Tally(c, ring, before, row)
    {
      report := before;
      if row.value == None { return; }
      var value := row.value.value;
      if !NeedsReseal(value, ring) {
        var outcome := OpenSealed(c, value, ring, row.orgId, row.id);
        if outcome.Unsealed? {
          report := report.(unreadable := report.unreadable + [Unreadable(row.id, row.name, outcome.reason)]);
        }
        return;
      }
      var plaintext;
      if !IsSealed(value) {
        plaintext := value;
        report := report.(sealed := report.sealed + 1);
      } else {
        var outcome := OpenSealed(c, value, ring, row.orgId, row.id);
        if outcome.Unsealed? {
          report := report.(unreadable := report.unreadable + [Unreadable(row.id, row.name, outcome.reason)]);
          return;
        }
        plaintext := outcome.text;
        report := report.(resealed := report.resealed + 1);
      }
      rows := Update(rows, row.id, Seal(c, plaintext, ring, row.orgId, row.id, iv));
    }

    /** The transaction of `resealUpstreamAuth`. `ivs[i]` is what `randomBytes` gives should row `i` be sealed. */
    method ResealUpstreamAuth(c: Crypto, ring: Keyring, ivs: seq<string>) returns (report: Report)
      requires DistinctIds(rows) && |ivs| == |rows|
      modifies this
      ensures Resealed(c, ring, old(rows), rows, ivs)
      ensures report == ReportOf(c, ring, old(rows))
    {
      report := Report(0, 0, []);
      var selected := rows;
      for i := 0 to |selected|
        invariant Partly(c, ring, selected, rows, ivs, i)
        invariant report == ReportOf(c, ring, selected[..i])
      {
        assert selected[..i + 1][..i] == selected[..i];
        PartlyStep(c, ring, selected, rows, ivs, i);
        report := ResealOne(c, ring, selected[i], ivs[i], report);
      }
      assert selected[..|selected|] == selected;
    }
  }

  // ---- What a pass keeps ----

  /** A pass changes no row's meaning, whichever of the ring's keys are still held to read it with. */
  lemma {:induction false} MeaningKept(c: Crypto, ring: Keyring, row: Row, iv: string)
    requires Inverts(c) && ring.Valid() && IsIv(iv)
    ensures var row' := ResealedRow(c, ring, row, iv);
      && Meaning(c, ring, row') == Meaning(c, ring, row)
      && (!Reported(c, ring, row) ==> Meaning(c, Only(ring), row') == Meaning(c, ring, row))
      && (!Reported(c, ring, row) && row.value.Some? ==> IsSealed(row'.value.value) && !NeedsReseal(row'.value.value, ring))
      && (Reported(c, ring, row) ==> row' == row)
      && (row'.id, row'.orgId, row'.name) == (row.id, row.orgId, row.name)
  {
    if Legacy(row) || Moved(c, ring, row) {
      var text := Meaning(c, ring, row).value.text;
      SealOpens(c, text, ring, row.orgId, row.id, iv, ring);
      SealOpens(c, text, ring, row.orgId, row.id, iv, Only(ring));
    }
  }

  /** The report lists exactly the rows that do not open, in table order, each with its own reason. */
  lemma {:induction false} ReportListsUnreadable(c: Crypto, ring: Keyring, rows: seq<Row>, u: Unreadable)
    ensures u in ReportOf(c, ring, rows).unreadable <==>
      exists i :: 0 <= i < |rows| && Reported(c, ring, rows[i]) && Complaint(c, ring, rows[i]) == u
  {
    if rows != [] {
      var front := rows[..|rows| - 1];
      ReportListsUnreadable(c, ring, front, u);
      assert forall i :: 0 <= i < |front| ==> rows[i] == front[i];
    }
  }

  predicate AlreadyCurrent(c: Crypto, ring: Keyring, row: Row) {
    row.value.Some? && !Legacy(row) && !Moved(c, ring, row) && !Reported(c, ring, row)
  }

  function CountCurrent(c: Crypto, ring: Keyring, rows: seq<Row>): nat {
    if rows == [] then 0
    else CountCurrent(c, ring, rows[..|rows| - 1]) + if AlreadyCurrent(c, ring, rows[|rows| - 1]) then 1 else 0
  }

  function CountHolding(rows: seq<Row>): nat {
    if rows == [] then 0 else CountHolding(rows[..|rows| - 1]) + if rows[|rows| - 1].value.Some? then 1 else 0
  }

  /** Every stored value is counted once: sealed, resealed, unreadable, or current already. */
  lemma {:induction false} ReportCounts(c: Crypto, ring: Keyring, rows: seq<Row>)
    ensures var r := ReportOf(c, ring, rows);
      r.sealed + r.resealed + |r.unreadable| + CountCurrent(c, ring, rows) == CountHolding(rows)
  {
    if rows != [] {
      ReportCounts(c, ring, rows[..|rows| - 1]);
    }
  }

  lemma {:induction false} SettledReport(c: Crypto, ring: Keyring, before: seq<Row>, after: seq<Row>, ivs: seq<string>)
    requires Inverts(c) && ring.Valid() && GoodIvs(ivs) && Resealed(c, ring, before, after, ivs)
    ensures ReportOf(c, ring, after) == Report(0, 0, ReportOf(c, ring, before).unreadable)
  {
    if before != [] {
      var n := |before| - 1;
      SettledReport(c, ring, before[..n], after[..n], ivs[..n]);
      MeaningKept(c, ring, before[n], ivs[n]);
    }
  }

  /** A second pass, whatever it draws, changes nothing and complains of the same rows. */
  lemma {:induction false} SecondPass(c: Crypto, ring: Keyring, before: seq<Row>, after: seq<Row>, ivs: seq<string>,
                   final: seq<Row>, ivs': seq<string>)
    requires Inverts(c) && ring.Valid() && GoodIvs(ivs)
    requires Resealed(c, ring, before, after, ivs) && Resealed(c, ring, after, final, ivs')
    ensures final == after
    ensures ReportOf(c, ring, after) == Report(0, 0, ReportOf(c, ring, before).unreadable)
  {
    forall i | 0 <= i < |after| ensures final[i] == after[i] {
      MeaningKept(c, ring, before[i], ivs[i]);
    }
    SettledReport(c, ring, before, after, ivs);
  }

  /** A row that does not open under a ring does not open under a part of it. */
  lemma {:induction false} StillUnreadable(c: Crypto, ring: Keyring, row: Row)
    requires ring.Valid() && Reported(c, ring, row)
    ensures Reported(c, Only(ring), row)
  {
  }

  /**
  The end of an overlap window: after a pass the previous keys may go. Every row that opened before
  the pass opens to the same text under the current key alone, and no other row does.
  */
  lemma {:induction false} PreviousKeysMayGo(c: Crypto, ring: Keyring, before: seq<Row>, after: seq<Row>, ivs: seq<string>, i: nat)
    requires Inverts(c) && ring.Valid() && GoodIvs(ivs) && Resealed(c, ring, before, after, ivs) && i < |before|
    ensures after[i].value.Some? <==> before[i].value.Some?
    ensures !Reported(c, ring, before[i]) ==> Meaning(c, Only(ring), after[i]) == Meaning(c, ring, before[i])
    ensures Reported(c, ring, before[i]) ==> after[i] == before[i] && Reported(c, Only(ring), after[i])
    ensures before[i].value.Some? && !Reported(c, ring, before[i]) ==>
      OpenSealed(c, after[i].value.value, Only(ring), after[i].orgId, after[i].id) == Meaning(c, ring, before[i]).value
  {
    MeaningKept(c, ring, before[i], ivs[i]);
    if Reported(c, ring, before[i]) {
      StillUnreadable(c, ring, before[i]);
    }
  }

  lemma {:induction false} MovedCounted(c: Crypto, ring: Keyring, rows: seq<Row>)
    ensures ReportOf(c, ring, rows).resealed == 0 <==> forall i :: 0 <= i < |rows| ==> !Moved(c, ring, rows[i])
  {
    if rows != [] {
      var front := rows[..|rows| - 1];
      MovedCounted(c, ring, front);
      assert forall i :: 0 <= i < |front| ==> rows[i] == front[i];
    }
  }

  /**
  Without the pass they may not: previous keys can be dropped from an untouched table exactly when no
  readable row is under one of them. (A legacy row needs no key.)
  */
  lemma {:induction false} DroppingTooSoon(c: Crypto, ring: Keyring, rows: seq<Row>)
    requires ring.Valid()
    ensures (forall i :: 0 <= i < |rows| && !Reported(c, ring, rows[i]) ==>
               Meaning(c, Only(ring), rows[i]) == Meaning(c, ring, rows[i]))
       <==> ReportOf(c, ring, rows).resealed == 0
  {
    MovedCounted(c, ring, rows);
    forall i | 0 <= i < |rows| && !Reported(c, ring, rows[i])
      ensures Meaning(c, Only(ring), rows[i]) == Meaning(c, ring, rows[i]) <==> !Moved(c, ring, rows[i])
    {
    }
  }
}
