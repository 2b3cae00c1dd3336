/**
 The durable ledger of header names that ever carried a credential. An append reads the row
 and then writes it conditionally; other clients may write between the two.
 */
module HeaderLedger {
  import opened Common
  import HeaderPolicy

  datatype Row = Row(revision: nat, names: set<string>)

  datatype Error = InvalidNames | InvalidRevision | Conflict | Unavailable

  const MAX_NAMES := 4096
  const MAX_NAME_LENGTH := 256
  const MAX_REVISION := 2147483647

  predicate LedgerName(name: string) {
    0 < |name| <= MAX_NAME_LENGTH && forall i :: 0 <= i < |name| ==> HeaderPolicy.TokenChar(name[i]) || name[i] == '*'
  }

  function Names(input: seq<string>): Result<set<string>, Error> {
    if |input| > MAX_NAMES || exists i :: 0 <= i < |input| && !LedgerName(input[i]) then Err(InvalidNames)
    else Ok(HeaderPolicy.Lowered(input))
  }

  function Revision(row: Option<Row>): nat {
    if row.Some? then row.value.revision else 0
  }

  function NamesOf(row: Option<Row>): set<string> {
    if row.Some? then row.value.names else {}
  }

  // A name as the ledger stores it.
  predicate Canonical(name: string) {
    LedgerName(name) && Lower(name) == name
  }

  /** What passes validation is canonical, and a duplicate-free listing of canonical names
      passes unchanged. */
  lemma NamesAreCanonical(input: seq<string>)
    ensures Names(input).Ok? ==> forall n :: n in Names(input).value ==> Canonical(n)
    ensures |input| <= MAX_NAMES && (forall n :: n in input ==> Canonical(n)) ==> Names(input) == Ok(set n | n in input)
  {
    forall n | n in input && LedgerName(n)
      ensures Canonical(Lower(n))
    {
      assert Lower(Lower(n)) == Lower(n);
    }
    if forall n :: n in input ==> Canonical(n) {
      assert forall i :: 0 <= i < |input| ==> input[i] in input;
      assert HeaderPolicy.Lowered(input) == set n | n in input;
    }
  }

  /** The first half: validate the request, read the row and compare its revision. The result
      is the row read; `incoming` is the outcome of validating the names. */
  function ReadForAppend(row: Option<Row>, expected: nat, incoming: Result<set<string>, Error>): Result<Option<Row>, Error> {
    if expected >= MAX_REVISION then Err(InvalidRevision)
    else if incoming.Err? then Err(InvalidNames)
    else if Revision(row) != expected then Err(Conflict)
    else Ok(row)
  }

  /** The second half: one atomic insert or conditional update of the row as it is by then. */
  function WriteIfUnchanged(row: Option<Row>, previous: Option<Row>, expected: nat, names: set<string>)
    : (Option<Row>, Result<Row, Error>)
  {
    var union := NamesOf(previous) + names;
    var next := Row(expected + 1, union);
    if |union| > MAX_NAMES then (row, Err(InvalidNames))
    else if previous.None? then
      if row.Some? then (row, Err(Conflict)) else (Some(next), Ok(next))
    else if row.Some? && row.value.revision == expected && row.value.names == previous.value.names then (Some(next), Ok(next))
    else (row, Err(Conflict))
  }

  /** Success unions the names into the row as it was and raises its revision by one;
      anything else leaves the row alone. A write succeeds only on the row it read. */
  lemma WriteIsCas(row: Option<Row>, previous: Option<Row>, expected: nat, names: set<string>)
    requires Revision(previous) == expected && (previous.Some? ==> expected >= 1)
    ensures var (after, r) := WriteIfUnchanged(row, previous, expected, names);
            if r.Ok? then row == previous && after == Some(Row(Revision(row) + 1, NamesOf(row) + names))
            else after == row
    ensures WriteIfUnchanged(row, previous, expected, names).1.Ok? <==>
            row == previous && |NamesOf(row) + names| <= MAX_NAMES
  {
  }

  /** The stored row. `ioOk` is false when the database call itself fails. */
  class Ledger {
    var row: Option<Row>

    constructor ()
      ensures row == None
    {
      row := None;
    }

    method BeginAppend(expected: nat, names: seq<string>) returns (previous: Result<Option<Row>, Error>)
      ensures previous == ReadForAppend(row, expected, Names(names))
    {
      if expected >= MAX_REVISION {
        return Err(InvalidRevision);
      }
      if Names(names).Err? {
        return Err(InvalidNames);
      }
      if (if row.Some? then row.value.revision else 0) != expected {
        return Err(Conflict);
      }
      previous := Ok(row);
    }

    method FinishAppend(previous: Option<Row>, expected: nat, incoming: set<string>, ioOk: bool) returns (r: Result<Row, Error>)
      modifies this
      ensures if ioOk then (row, r) == WriteIfUnchanged(old(row), previous, expected, incoming)
              else row == old(row) && r.Err?
    {
      var union := (if previous.Some? then previous.value.names else {}) + incoming;
      if |union| > MAX_NAMES {
        return Err(InvalidNames);
      }
      if !ioOk {
        return Err(Unavailable);
      }
      var next := Row(expected + 1, union);
      if previous.None? {
        if row.Some? {
          return Err(Conflict);
        }
        row := Some(next);
      } else {
        if row.None? || row.value.revision != expected || row.value.names != previous.value.names {
          return Err(Conflict);
        }
        row := Some(next);
      }
      r := Ok(next);
    }
  }
}
