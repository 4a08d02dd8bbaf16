/**
 * sqlForPartialUpdate: the `SET` fragment of a parameterised UPDATE built
 * from an update object and an allow-list mapping field names to columns.
 *
 * The update object is the sequence of its entries in `Object.keys`
 * order (the order `Object.values` also follows); the allow-list is a map
 * from field name to column text. Each field becomes `<column>=$<n>`,
 * numbered from 1 in key order, and the fragments are joined with ", ".
 */
module PartialUpdate {
  import opened Wrappers
  import Text

  /**
   * Why no fragment is produced. `NoData`: the update object has no keys;
   * the source throws `new BadRequestError("No data")` there, and since that
   * file never imports `BadRequestError` what actually surfaces is a
   * ReferenceError, but either way the call throws. `InvalidColumn(f)`: field
   * `f` has no truthy column, and the call throws `Invalid column: f`.
   */
  datatype UpdateError = NoData | InvalidColumn(field: string)

  /** The message each failure surfaces with. */
  function ErrorMessage(e: UpdateError): string
  {
    match e
    case NoData => "BadRequestError is not defined"
    case InvalidColumn(f) => "Invalid column: " + f
  }

  /** A rejected field's message names the field, and neither failure's message is the other's. */
  lemma ErrorMessageNamesFailure(e1: UpdateError, e2: UpdateError)
    ensures ErrorMessage(e1) == ErrorMessage(e2) <==> e1 == e2
  {
    if e1.InvalidColumn? && e2.InvalidColumn? && ErrorMessage(e1) == ErrorMessage(e2) {
      assert e1.field == ErrorMessage(e1)[16..];
      assert e2.field == ErrorMessage(e2)[16..];
    } else if e1.NoData? != e2.NoData? {
      assert ErrorMessage(e1)[0] != ErrorMessage(e2)[0];
    }
  }

  /** The result object `{setCols, values}`. */
  datatype SetClause<V> = SetClause(setCols: string, values: seq<V>)

  /** `Object.keys(dataToUpdate)`. */
  function Fields<V>(data: seq<(string, V)>): (ks: seq<string>)
    ensures |ks| == |data|
    ensures forall i :: 0 <= i < |data| ==> ks[i] == data[i].0
  {
    seq(|data|, i requires 0 <= i < |data| => data[i].0)
  }

  /** `Object.values(dataToUpdate)`. */
  function Values<V>(data: seq<(string, V)>): (vs: seq<V>)
    ensures |vs| == |data|
    ensures forall i :: 0 <= i < |data| ==> vs[i] == data[i].1
  {
    seq(|data|, i requires 0 <= i < |data| => data[i].1)
  }

  /** `jsToSql[field]` is truthy: the allow-list names a non-empty column for the field. */
  predicate Allowed(jsToSql: map<string, string>, field: string)
  {
    field in jsToSql && jsToSql[field] != ""
  }

  /** Position `j` holds the first field, in order, that the allow-list rejects. */
  predicate FirstRejected(fields: seq<string>, jsToSql: map<string, string>, j: int)
  {
    && 0 <= j < |fields|
    && !Allowed(jsToSql, fields[j])
    && forall i :: 0 <= i < j ==> Allowed(jsToSql, fields[i])
  }

  /** One assignment `<column>=$<n>`. */
  function Assignment(column: string, n: nat): string
  {
    column + "=$" + Text.NatToString(n)
  }

  /**
   * `keys.map((colName, idx) => ...)` over the fields from position `start - 1` on:
   * the first rejected field throws, otherwise field `i` becomes the
   * assignment of its column to placeholder `start + i`.
   */
  function Assignments(fields: seq<string>, jsToSql: map<string, string>, start: nat): (r: Result<seq<string>, UpdateError>)
    ensures r.Success? <==> forall i :: 0 <= i < |fields| ==> Allowed(jsToSql, fields[i])
    ensures r.Success? ==> |r.value| == |fields|
    ensures r.Success? ==> forall i :: 0 <= i < |fields| ==>
              r.value[i] == Assignment(jsToSql[fields[i]], start + i)
    ensures r.Failure? ==> exists j :: FirstRejected(fields, jsToSql, j) && r.error == InvalidColumn(fields[j])
    decreases |fields|
  {
    if |fields| == 0 then Success([])
    else if !Allowed(jsToSql, fields[0]) then
      assert FirstRejected(fields, jsToSql, 0);
      Failure(InvalidColumn(fields[0]))
    else
      match Assignments(fields[1..], jsToSql, start + 1)
      case Failure(e) =>
        var j :| FirstRejected(fields[1..], jsToSql, j) && e == InvalidColumn(fields[1..][j]);
        assert FirstRejected(fields, jsToSql, j + 1);
        Failure(e)
      case Success(rest) => Success([Assignment(jsToSql[fields[0]], start)] + rest)
  }

  /** sqlForPartialUpdate(dataToUpdate, jsToSql). */
  function SqlForPartialUpdate<V>(data: seq<(string, V)>, jsToSql: map<string, string>): (r: Result<SetClause<V>, UpdateError>)
    ensures |data| == 0 ==> r == Failure(NoData)
    ensures r.Success? <==> |data| > 0 && forall i :: 0 <= i < |data| ==> Allowed(jsToSql, data[i].0)
    ensures r.Failure? && |data| > 0 ==>
              exists j :: FirstRejected(Fields(data), jsToSql, j) && r.error == InvalidColumn(data[j].0)
    ensures r.Success? ==> |r.value.values| == |data| && forall i :: 0 <= i < |data| ==> r.value.values[i] == data[i].1
    ensures r.Success? ==> r.value.setCols == Text.Join(Render(Placed(data, jsToSql)), ", ")
  {
    var fields := Fields(data);
    if |fields| == 0 then Failure(NoData)
    else match Assignments(fields, jsToSql, 1)
      case Failure(e) => Failure(e)
      case Success(cols) =>
        assert cols == Render(Placed(data, jsToSql));
        Success(SetClause(Text.Join(cols, ", "), Values(data)))
  }

  // ---------------------------------------------------------------------
  // Reading a SET fragment back into (column, placeholder) pairs

  /** Columns that can be read back: no column text holds the "," or "=" the fragment is made of. */
  predicate ReadableColumns(jsToSql: map<string, string>)
  {
    forall f :: f in jsToSql ==> ',' !in jsToSql[f] && '=' !in jsToSql[f]
  }

  /** The fragment text of a list of (column, placeholder) pairs. */
  function Render(pairs: seq<(string, int)>): (cols: seq<string>)
    requires forall i :: 0 <= i < |pairs| ==> pairs[i].1 >= 0
    ensures |cols| == |pairs|
    ensures forall i :: 0 <= i < |pairs| ==> cols[i] == Assignment(pairs[i].0, pairs[i].1)
  {
    seq(|pairs|, i requires 0 <= i < |pairs| => Assignment(pairs[i].0, pairs[i].1))
  }

  /** One `<column>=$<n>` read back as its column and placeholder number. */
  function ReadAssignment(a: string): Option<(string, int)>
  {
    var halves := Text.Split(a, '=');
    if |halves| != 2 then None
    else
      var rhs := halves[1];
      if |rhs| >= 2 && rhs[0] == '$' && Text.AllDigits(rhs[1..])
      then Some((halves[0], Text.ParseDigits(rhs[1..])))
      else None
  }

  /** The pieces after the first comma, each led by one space, read back. */
  function ReadLed(pieces: seq<string>): Option<seq<(string, int)>>
  {
    if |pieces| == 0 then Some([])
    else if |pieces[0]| == 0 || pieces[0][0] != ' ' then None
    else match (ReadAssignment(pieces[0][1..]), ReadLed(pieces[1..]))
      case (Some(a), Some(rest)) => Some([a] + rest)
      case _ => None
  }

  /** A whole SET fragment read back as (column, placeholder) pairs, in order. */
  function ReadSetCols(setCols: string): Option<seq<(string, int)>>
  {
    var pieces := Text.Split(setCols, ',');
    match (ReadAssignment(pieces[0]), ReadLed(pieces[1..]))
    case (Some(a), Some(rest)) => Some([a] + rest)
    case _ => None
  }

  /** An assignment reads back as its column and number. */
  lemma ReadAssignmentOf(column: string, n: nat)
    requires '=' !in column
    ensures ReadAssignment(Assignment(column, n)) == Some((column, n))
  {
    var digits := Text.NatToString(n);
    var rhs := "$" + digits;
    assert '=' !in rhs by {
      forall k | 0 <= k < |rhs|
        ensures rhs[k] != '='
      {
        if k > 0 {
          assert rhs[k] == digits[k - 1];
        }
      }
    }
    assert Assignment(column, n) == Text.Join([column, rhs], "=");
    Text.SplitJoin([column, rhs], '=');
    assert rhs[1..] == digits;
    Text.ParseNatToString(n);
  }

  /** An assignment of a column free of "," holds no ",". */
  lemma AssignmentCommaFree(column: string, n: nat)
    requires ',' !in column
    ensures ',' !in Assignment(column, n)
  {
    var digits := Text.NatToString(n);
    var a := Assignment(column, n);
    forall k | 0 <= k < |a|
      ensures a[k] != ','
    {
      if k >= |column| + 2 {
        assert a[k] == digits[k - |column| - 2];
      }
    }
  }

  /** Led rendered pairs read back as the pairs. */
  lemma {:induction false} ReadLedRendered(pairs: seq<(string, int)>)
    requires forall i :: 0 <= i < |pairs| ==> pairs[i].1 >= 0 && '=' !in pairs[i].0
    ensures ReadLed(Text.Lead(Render(pairs))) == Some(pairs)
  {
    if |pairs| > 0 {
      var led := Text.Lead(Render(pairs));
      assert led[0][1..] == Assignment(pairs[0].0, pairs[0].1);
      ReadAssignmentOf(pairs[0].0, pairs[0].1);
      assert led[1..] == Text.Lead(Render(pairs[1..]));
      ReadLedRendered(pairs[1..]);
      assert [pairs[0]] + pairs[1..] == pairs;
    }
  }

  /** A fragment rendered from pairs whose columns hold neither "," nor "=" reads back as those pairs. */
  lemma ReadRendered(pairs: seq<(string, int)>)
    requires |pairs| > 0
    requires forall i :: 0 <= i < |pairs| ==> pairs[i].1 >= 0 && '=' !in pairs[i].0 && ',' !in pairs[i].0
    ensures ReadSetCols(Text.Join(Render(pairs), ", ")) == Some(pairs)
  {
    var cols := Render(pairs);
    var pieces := [cols[0]] + Text.Lead(cols[1..]);
    Text.CommaSpaceJoin(cols);
    forall k | 0 <= k < |pieces|
      ensures ',' !in pieces[k]
    {
      if k == 0 {
        AssignmentCommaFree(pairs[0].0, pairs[0].1);
      } else {
        AssignmentCommaFree(pairs[k].0, pairs[k].1);
        assert pieces[k] == " " + cols[k];
      }
    }
    Text.SplitJoin(pieces, ',');
    ReadAssignmentOf(pairs[0].0, pairs[0].1);
    assert cols[1..] == Render(pairs[1..]);
    ReadLedRendered(pairs[1..]);
    assert [pairs[0]] + pairs[1..] == pairs;
  }

  /** The pairs a successful update assigns: the column of field `i` to placeholder `i + 1`. */
  function Placed<V>(data: seq<(string, V)>, jsToSql: map<string, string>): (pairs: seq<(string, int)>)
    requires forall i :: 0 <= i < |data| ==> data[i].0 in jsToSql
    ensures |pairs| == |data|
    ensures forall i :: 0 <= i < |data| ==> pairs[i] == (jsToSql[data[i].0], i + 1)
  {
    seq(|data|, i requires 0 <= i < |data| => (jsToSql[data[i].0], i + 1))
  }

  /**
   * The placeholders of a successful fragment are $1..$n in key order,
   * placeholder `$i` is assigned the column of the field whose value is
   * `values[i-1]`, and no other text is in the fragment.
   */
  lemma SetColsRoundTrip<V>(data: seq<(string, V)>, jsToSql: map<string, string>)
    requires SqlForPartialUpdate(data, jsToSql).Success?
    requires ReadableColumns(jsToSql)
    ensures forall i :: 0 <= i < |data| ==> data[i].0 in jsToSql
    ensures ReadSetCols(SqlForPartialUpdate(data, jsToSql).value.setCols) == Some(Placed(data, jsToSql))
    ensures forall i :: 0 <= i < |data| ==> SqlForPartialUpdate(data, jsToSql).value.values[i] == data[i].1
  {
    var pairs := Placed(data, jsToSql);
    var cols := Assignments(Fields(data), jsToSql, 1).value;
    assert cols == Render(pairs);
    ReadRendered(pairs);
  }

  /** The fragment and the failure depend only on the fields and the allow-list, never on the values. */
  lemma ClauseIgnoresValues<V>(d1: seq<(string, V)>, d2: seq<(string, V)>, jsToSql: map<string, string>)
    requires Fields(d1) == Fields(d2)
    ensures SqlForPartialUpdate(d1, jsToSql).Success? <==> SqlForPartialUpdate(d2, jsToSql).Success?
    ensures SqlForPartialUpdate(d1, jsToSql).Success? ==>
              SqlForPartialUpdate(d1, jsToSql).value.setCols == SqlForPartialUpdate(d2, jsToSql).value.setCols
    ensures SqlForPartialUpdate(d1, jsToSql).Failure? ==>
              SqlForPartialUpdate(d1, jsToSql).error == SqlForPartialUpdate(d2, jsToSql).error
  {
  }

  /** Two profile fields become two numbered placeholders, with their values in the same order. */
  lemma ExampleTwoFields()
    ensures SqlForPartialUpdate([("first_name", "x"), ("phone", "y")], map["first_name" := "first_name", "phone" := "phone"])
              == Success(SetClause("first_name=$1, phone=$2", ["x", "y"]))
  {
    var data := [("first_name", "x"), ("phone", "y")];
    var jsToSql := map["first_name" := "first_name", "phone" := "phone"];
    assert Fields(data) == ["first_name", "phone"];
    assert Values(data) == ["x", "y"];
    assert Text.NatToString(1) == "1" && Text.NatToString(2) == "2";
    assert Assignment("first_name", 1) == "first_name=$1";
    assert Assignment("phone", 2) == "phone=$2";
    var cols := Assignments(Fields(data), jsToSql, 1).value;
    assert cols == ["first_name=$1", "phone=$2"];
    assert Text.Join(cols, ", ") == "first_name=$1" + ", " + "phone=$2" == "first_name=$1, phone=$2";
    assert SqlForPartialUpdate(data, jsToSql) == Success(SetClause(Text.Join(cols, ", "), Values(data)));
  }

  /** A field missing from the allow-list is named in the failure. */
  lemma ExampleUnknownField()
    ensures SqlForPartialUpdate([("foo", 1)], map["bar" := "bar_col"]) == Failure(InvalidColumn("foo"))
  {
    assert Fields([("foo", 1)]) == ["foo"];
  }
}
