/**
 The result presenter's decisions: nothing at all for an empty result list;
 otherwise one table row per match, a one-line entry for each of the first
 ten matches, and a collapsed table group when there are more than ten.
 Console styling and rendering are not modelled, only what is shown.
 */
module Presenter {
  import opened Options
  import opened Records
  import opened StackFrame

  /** How many matches get a one-line console entry. */
  const Limit := 10

  /** A table row, one column per displayed attribute. */
  datatype Row = Row(
    name: string,
    value: Scalar,
    typ: string,
    codeName: Option<string>,
    execCount: Option<int>,
    execOrder: int,
    codeAddress: string
  )

  /** A one-line console entry: the match's index, name and code address. */
  datatype LineEntry = LineEntry(index: nat, name: string, codeAddress: string)

  /** What a non-empty result list shows. */
  datatype Display = Display(table: seq<Row>, lines: seq<LineEntry>, collapsed: bool)

  /** `executeTimes[key]`, which is `undefined` for a location never counted. */
  function Lookup(counts: map<string, int>, key: string): (c: Option<int>) {
    if key in counts then Some(counts[key]) else None
  }

  /** The display form of one match. */
  function DisplayRow(rec: Record, counts: map<string, int>): (row: Row) {
    var info := ParseCodeLocation(rec.codeLocation);
    Row(rec.name, rec.value, rec.typ, info.codeName, Lookup(counts, rec.codeLocation), rec.execOrder, info.codeAddress)
  }

  /** `results.map(...)`. */
  function DisplayRows(results: seq<Record>, counts: map<string, int>): (rows: seq<Row>)
    ensures |rows| == |results|
    ensures forall k :: 0 <= k < |results| ==> rows[k] == DisplayRow(results[k], counts)
    decreases |results|
  {
    if |results| == 0 then []
    else [DisplayRow(results[0], counts)] + DisplayRows(results[1..], counts)
  }

  /** `displayResults.slice(0, limit)`, each entry numbered by its position. */
  function LineEntries(rows: seq<Row>): (lines: seq<LineEntry>) {
    var n := if |rows| < Limit then |rows| else Limit;
    seq(n, k requires 0 <= k < n => LineEntry(k, rows[k].name, rows[k].codeAddress))
  }

  /** `blank(n)`: a run of `n` spaces. */
  function Blank(n: nat): (r: string)
    ensures |r| == n
    ensures forall k :: 0 <= k < n ==> r[k] == ' '
  {
    if n == 0 then "" else " " + Blank(n - 1)
  }

  /** `printResult`, reduced to what it decides to show. */
  function PrintResult(results: seq<Record>, counts: map<string, int>): (d: Option<Display>)
    ensures d.None? <==> |results| == 0
    ensures d.Some? ==> |d.value.table| == |results|
    ensures d.Some? ==> forall k :: 0 <= k < |results| ==>
      var row := d.value.table[k];
      var info := ParseCodeLocation(results[k].codeLocation);
      && row.name == results[k].name
      && row.value == results[k].value
      && row.typ == results[k].typ
      && row.execOrder == results[k].execOrder
      && row.execCount == (if results[k].codeLocation in counts then Some(counts[results[k].codeLocation]) else None)
      && row.codeName == info.codeName
      && row.codeAddress == info.codeAddress
    ensures d.Some? ==> |d.value.lines| == (if |results| <= Limit then |results| else Limit)
    ensures d.Some? ==> forall k :: 0 <= k < |d.value.lines| ==>
      d.value.lines[k] == LineEntry(k, results[k].name, ParseCodeLocation(results[k].codeLocation).codeAddress)
    ensures d.Some? ==> (d.value.collapsed <==> Limit < |results|)
  {
    if |results| == 0 then None
    else
      var rows := DisplayRows(results, counts);
      Some(Display(rows, LineEntries(rows), Limit < |results|))
  }

  /** The line entries are the first rows of the table, in table order. */
  lemma LinesAreLeadingRows(results: seq<Record>, counts: map<string, int>)
    requires PrintResult(results, counts).Some?
    ensures var d := PrintResult(results, counts).value;
      forall k :: 0 <= k < |d.lines| ==>
        d.lines[k].name == d.table[k].name && d.lines[k].codeAddress == d.table[k].codeAddress
  {
  }

  /**
   Matches past the tenth change the table but not the line entries: the
   entries of a long list are those of its first ten matches.
   */
  lemma LinesIgnoreMatchesPastLimit(results: seq<Record>, more: seq<Record>, counts: map<string, int>)
    requires Limit <= |results|
    ensures PrintResult(results + more, counts).value.lines == PrintResult(results, counts).value.lines
  {
    var a := PrintResult(results + more, counts).value.lines;
    var b := PrintResult(results, counts).value.lines;
    assert forall k :: 0 <= k < Limit ==> (results + more)[k] == results[k];
    assert a == b;
  }
}
