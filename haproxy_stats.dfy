/** One balancer's status feed, as `_get_stats` in update-lb.py reads it: the
    comment marker in front of the CSV header is stripped, the parsed rows are
    sorted by server name, and only the server rows of the requested backend
    that are not backups are kept, each projected to four columns.

    The rows are taken as already parsed (one map from column name to cell per
    CSV line). A row that lacks a column the code reads makes Python raise
    `KeyError`; here that is `Failure(column)`, raised in the order the
    expression reads the columns. */
module HaproxyStats {
  import opened Wrappers
  import opened Text

  type Row = map<string, string>

  /** The four columns `_get_stats` keeps of a server row. */
  datatype Record = Record(svname: string, status: string, checkStatus: string, iid: string)

  /** `re.sub('^# ', '', text)`: without the MULTILINE flag `^` only matches at
      the very start of the feed, so at most one marker is removed. */
  function StripHeaderMarker(text: string): (r: string)
    ensures text == r || text == "# " + r
    ensures |r| < |text| <==> StartsWith(text, "# ")
  {
    if StartsWith(text, "# ") then text[2..] else text
  }

  /** Prefixing a marker is undone, and only that one marker goes: a second one,
      or one at the head of a later line, is kept. */
  lemma StripHeaderMarkerRoundTrip(body: string)
    ensures StripHeaderMarker("# " + body) == body
  {
    assert ("# " + body)[2..] == body;
  }

  lemma StripHeaderMarkerKeepsLaterLines(first: string, rest: string)
    requires !StartsWith(first, "#")
    ensures StripHeaderMarker(first + "\n# " + rest) == first + "\n# " + rest
  {
    var text := first + "\n# " + rest;
    if StartsWith(text, "# ") {
      if |first| == 0 {
        assert text[0] == '\n';
      } else {
        assert first[..1] == text[..1];
      }
    }
  }

  function Field(row: Row, column: string): string
  {
    if column in row then row[column] else ""
  }

  function SvnameOf(row: Row): string
  {
    Field(row, "svname")
  }

  function RecordSvname(rec: Record): string
  {
    rec.svname
  }

  /** The filter of the comprehension: a server row (`type == '2'`) of the
      requested backend that is not a backup (`bck == '0'`). */
  predicate IsServerRow(row: Row, backend: string)
  {
    && "type" in row && row["type"] == "2"
    && "pxname" in row && row["pxname"] == backend
    && "bck" in row && row["bck"] == "0"
  }

  predicate HasColumns(row: Row)
  {
    forall c :: c in ["svname", "status", "check_status", "iid", "type", "pxname", "bck"] ==> c in row
  }

  /** The columns the filter reads of a row, in its short-circuit order. */
  predicate KeepReads(row: Row, backend: string)
  {
    && "type" in row
    && (row["type"] == "2" ==> "pxname" in row && (row["pxname"] == backend ==> "bck" in row))
  }

  /** The columns the dictionary display reads of a kept row. */
  predicate ProjectReads(row: Row)
  {
    "svname" in row && "status" in row && "check_status" in row && "iid" in row
  }

  /** Every column the comprehension reads of this row is present. */
  predicate SelectReads(row: Row, backend: string)
  {
    KeepReads(row, backend) && (IsServerRow(row, backend) ==> ProjectReads(row))
  }

  /** `c` is the first of `columns` that `row` lacks: the `KeyError` Python
      raises when it reads `columns` in order. */
  predicate FirstAbsent(row: Row, columns: seq<string>, c: string)
  {
    exists k :: 0 <= k < |columns| && columns[k] == c && c !in row && forall j :: 0 <= j < k ==> columns[j] in row
  }

  /** The record built from a row, the columns read with `Field`. */
  function ExpectedRecord(row: Row): Record
  {
    Record(Field(row, "svname"), Field(row, "status"), Field(row, "check_status"), Field(row, "iid"))
  }

  /** Reference definition: the records of the kept rows, in the given order. */
  function Expected(rows: seq<Row>, backend: string): seq<Record>
  {
    if |rows| == 0 then []
    else (if IsServerRow(rows[0], backend) then [ExpectedRecord(rows[0])] else [])
         + Expected(rows[1..], backend)
  }

  // ---------------------------------------------------------------------------
  // The code as it evaluates.

  /** The condition `x['type'] == '2' and x['pxname'] == backend_name and
      x['bck'] == '0'`, short-circuiting like Python's `and`. */
  function Keep(row: Row, backend: string): (r: Result<bool, string>)
    ensures r.Success? ==> (r.value <==> IsServerRow(row, backend))
    ensures r.Success? <==> KeepReads(row, backend)
    ensures r.Failure? ==> FirstAbsent(row, ["type", "pxname", "bck"], r.error)
    ensures HasColumns(row) ==> r.Success?
  {
    var columns := ["type", "pxname", "bck"];
    if "type" !in row then
      assert columns[0] == "type";
      Failure("type")
    else if row["type"] != "2" then Success(false)
    else if "pxname" !in row then
      assert columns[1] == "pxname" && columns[0] in row;
      Failure("pxname")
    else if row["pxname"] != backend then Success(false)
    else if "bck" !in row then
      assert columns[2] == "bck" && columns[0] in row && columns[1] in row;
      Failure("bck")
    else Success(row["bck"] == "0")
  }

  /** The dictionary display, its four keys read in order. */
  function Project(row: Row): (r: Result<Record, string>)
    ensures r.Success? ==> r.value == ExpectedRecord(row)
    ensures r.Success? <==> ProjectReads(row)
    ensures r.Failure? ==> FirstAbsent(row, ["svname", "status", "check_status", "iid"], r.error)
    ensures HasColumns(row) ==> r.Success?
  {
    var columns := ["svname", "status", "check_status", "iid"];
    if "svname" !in row then
      assert columns[0] == "svname";
      Failure("svname")
    else if "status" !in row then
      assert columns[1] == "status" && columns[0] in row;
      Failure("status")
    else if "check_status" !in row then
      assert columns[2] == "check_status" && columns[0] in row && columns[1] in row;
      Failure("check_status")
    else if "iid" !in row then
      assert columns[3] == "iid" && columns[0] in row && columns[1] in row && columns[2] in row;
      Failure("iid")
    else Success(Record(row["svname"], row["status"], row["check_status"], row["iid"]))
  }

  /** The comprehension over the (already sorted) rows. */
  function Select(rows: seq<Row>, backend: string): Result<seq<Record>, string>
  {
    if |rows| == 0 then Success([])
    else
      match Keep(rows[0], backend)
      case Failure(c) => Failure(c)
      case Success(false) => Select(rows[1..], backend)
      case Success(true) =>
        match Project(rows[0])
        case Failure(c) => Failure(c)
        case Success(rec) =>
          match Select(rows[1..], backend)
          case Failure(c) => Failure(c)
          case Success(recs) => Success([rec] + recs)
  }

  /** `_get_stats` on the parsed rows of one feed. `sorted(reader,
      key=itemgetter('svname'))` reads the key of every row first. */
  function GetStats(rows: seq<Row>, backend: string): (r: Result<seq<Record>, string>)
    ensures r.Success? ==> SortedBy(r.value, RecordSvname)
    ensures r.Success? ==> multiset(r.value) == multiset(Expected(rows, backend))
    ensures (forall i :: 0 <= i < |rows| ==> HasColumns(rows[i])) ==> r.Success?
    ensures (exists i :: 0 <= i < |rows| && "svname" !in rows[i]) ==> r == Failure("svname")
    ensures r.Success? <==> forall i :: 0 <= i < |rows| ==> "svname" in rows[i] && SelectReads(rows[i], backend)
    ensures r.Failure? ==> exists i :: 0 <= i < |rows| && r.error !in rows[i]
  {
    if exists i :: 0 <= i < |rows| && "svname" !in rows[i] then Failure("svname")
    else
      SortedSelectFacts(rows, backend);
      Select(SortBy(rows, SvnameOf), backend)
  }

  // ---------------------------------------------------------------------------
  // Lemmas.

  lemma SortedSelectFacts(rows: seq<Row>, backend: string)
    ensures var r := Select(SortBy(rows, SvnameOf), backend);
      && (r.Success? ==> SortedBy(r.value, RecordSvname))
      && (r.Success? ==> multiset(r.value) == multiset(Expected(rows, backend)))
      && ((forall i :: 0 <= i < |rows| ==> HasColumns(rows[i])) ==> r.Success?)
      && (r.Success? <==> forall i :: 0 <= i < |rows| ==> SelectReads(rows[i], backend))
      && (r.Failure? ==> exists i :: 0 <= i < |rows| && r.error !in rows[i])
  {
    var sorted := SortBy(rows, SvnameOf);
    var r := Select(sorted, backend);
    SelectMeansExpected(sorted, backend);
    ExpectedPermutation(sorted, rows, backend);
    ExpectedSorted(sorted, backend);
    SelectSucceeds(sorted, backend);
    SelectReadsPermute(rows, sorted, backend, "");
    if r.Failure? {
      SelectReadsPermute(sorted, rows, backend, r.error);
    } else {
      SelectReadsPermute(sorted, rows, backend, "");
    }
    if forall i :: 0 <= i < |rows| ==> HasColumns(rows[i]) {
      forall i | 0 <= i < |rows|
        ensures SelectReads(rows[i], backend)
      {
        assert Keep(rows[i], backend).Success? && Project(rows[i]).Success?;
      }
    }
  }

  lemma {:induction false} SelectMeansExpected(rows: seq<Row>, backend: string)
    ensures Select(rows, backend).Success? ==> Select(rows, backend).value == Expected(rows, backend)
  {
    if |rows| > 0 {
      SelectMeansExpected(rows[1..], backend);
    }
  }

  /** The comprehension raises exactly when some row lacks a column it reads,
      and the error names a column that some row lacks. */
  lemma {:induction false} SelectSucceeds(rows: seq<Row>, backend: string)
    ensures Select(rows, backend).Success? <==> forall k :: 0 <= k < |rows| ==> SelectReads(rows[k], backend)
    ensures Select(rows, backend).Failure? ==> exists k :: 0 <= k < |rows| && Select(rows, backend).error !in rows[k]
  {
    if |rows| > 0 {
      SelectSucceeds(rows[1..], backend);
      assert forall k :: 0 < k < |rows| ==> rows[1..][k - 1] == rows[k];
      var r := Select(rows, backend);
      if r.Failure? {
        var head := Keep(rows[0], backend);
        if head.Failure? {
          assert FirstAbsent(rows[0], ["type", "pxname", "bck"], head.error);
          assert r.error !in rows[0];
        } else if head.value && Project(rows[0]).Failure? {
          assert FirstAbsent(rows[0], ["svname", "status", "check_status", "iid"], Project(rows[0]).error);
          assert r.error !in rows[0];
        } else {
          var k :| 0 <= k < |rows[1..]| && r.error !in rows[1..][k];
          assert r.error !in rows[k + 1];
        }
      }
    }
  }

  /** What the comprehension reads of a row does not depend on the row's place. */
  lemma SelectReadsPermute(s: seq<Row>, t: seq<Row>, backend: string, c: string)
    requires multiset(s) == multiset(t)
    ensures (forall k :: 0 <= k < |s| ==> SelectReads(s[k], backend)) ==> (forall k :: 0 <= k < |t| ==> SelectReads(t[k], backend))
    ensures (exists k :: 0 <= k < |s| && c !in s[k]) ==> (exists k :: 0 <= k < |t| && c !in t[k])
  {
    forall k | 0 <= k < |t|
      ensures exists i :: 0 <= i < |s| && s[i] == t[k]
    {
      assert t[k] in multiset(s);
    }
    if exists k :: 0 <= k < |s| && c !in s[k] {
      var k :| 0 <= k < |s| && c !in s[k];
      assert s[k] in multiset(t);
      var i :| 0 <= i < |t| && t[i] == s[k];
    }
  }

  lemma {:induction false} ExpectedAppend(a: seq<Row>, b: seq<Row>, backend: string)
    ensures Expected(a + b, backend) == Expected(a, backend) + Expected(b, backend)
  {
    if |a| > 0 {
      assert (a + b)[1..] == a[1..] + b;
      ExpectedAppend(a[1..], b, backend);
    } else {
      assert a + b == b;
    }
  }

  /** Reordering the rows does not change which records come out. */
  lemma {:induction false} ExpectedPermutation(s: seq<Row>, t: seq<Row>, backend: string)
    requires multiset(s) == multiset(t)
    ensures multiset(Expected(s, backend)) == multiset(Expected(t, backend))
    decreases |s|
  {
    if |s| == 0 {
      assert |t| == |multiset(t)| == 0;
    } else {
      var x := s[0];
      assert x in multiset(t);
      var i :| 0 <= i < |t| && t[i] == x;
      var rest := t[..i] + t[i + 1..];
      RemoveAt(t, i);
      assert s == [x] + s[1..];
      assert multiset(s[1..]) == multiset(s) - multiset{x};
      ExpectedPermutation(s[1..], rest, backend);
      ExpectedRemoveAt(t, i, backend);
      ExpectedAppend([x], s[1..], backend);
    }
  }

  lemma RemoveAt<T>(t: seq<T>, i: nat)
    requires i < |t|
    ensures multiset(t[..i] + t[i + 1..]) == multiset(t) - multiset{t[i]}
  {
    assert t == t[..i] + [t[i]] + t[i + 1..];
    assert multiset(t) == multiset(t[..i]) + multiset{t[i]} + multiset(t[i + 1..]);
  }

  lemma ExpectedRemoveAt(t: seq<Row>, i: nat, backend: string)
    requires i < |t|
    ensures multiset(Expected(t, backend)) ==
            multiset(Expected([t[i]], backend)) + multiset(Expected(t[..i] + t[i + 1..], backend))
  {
    assert t == (t[..i] + [t[i]]) + t[i + 1..];
    ExpectedAppend(t[..i] + [t[i]], t[i + 1..], backend);
    ExpectedAppend(t[..i], [t[i]], backend);
    ExpectedAppend(t[..i], t[i + 1..], backend);
  }

  /** Every record of the reference comes from a kept row, and back. */
  lemma {:induction false} ExpectedMembers(rows: seq<Row>, backend: string, rec: Record)
    ensures rec in Expected(rows, backend) <==>
            exists k :: 0 <= k < |rows| && IsServerRow(rows[k], backend) && rec == ExpectedRecord(rows[k])
  {
    if |rows| > 0 {
      ExpectedMembers(rows[1..], backend, rec);
      if exists k :: 0 <= k < |rows| && IsServerRow(rows[k], backend) && rec == ExpectedRecord(rows[k]) {
        var k :| 0 <= k < |rows| && IsServerRow(rows[k], backend) && rec == ExpectedRecord(rows[k]);
        if k > 0 {
          assert rows[1..][k - 1] == rows[k];
        }
      }
    }
  }

  lemma {:induction false} ExpectedSorted(rows: seq<Row>, backend: string)
    requires SortedBy(rows, SvnameOf)
    ensures SortedBy(Expected(rows, backend), RecordSvname)
  {
    if |rows| > 0 {
      var tail := Expected(rows[1..], backend);
      SortedRowsTail(rows);
      ExpectedSorted(rows[1..], backend);
      forall j | 0 <= j < |tail|
        ensures LessEq(SvnameOf(rows[0]), RecordSvname(tail[j]))
      {
        ExpectedMembers(rows[1..], backend, tail[j]);
        var k :| 0 <= k < |rows[1..]| && IsServerRow(rows[1..][k], backend) && tail[j] == ExpectedRecord(rows[1..][k]);
        assert rows[1..][k] == rows[k + 1];
      }
      var head := if IsServerRow(rows[0], backend) then [ExpectedRecord(rows[0])] else [];
      SortedPrepend(head, tail, SvnameOf(rows[0]));
    }
  }

  lemma SortedRowsTail(rows: seq<Row>)
    requires |rows| > 0 && SortedBy(rows, SvnameOf)
    ensures SortedBy(rows[1..], SvnameOf)
  {
    forall i, j | 0 <= i < j < |rows[1..]|
      ensures LessEq(SvnameOf(rows[1..][i]), SvnameOf(rows[1..][j]))
    {
      assert rows[1..][i] == rows[i + 1] && rows[1..][j] == rows[j + 1];
    }
  }

  /** At most one record with name `key` before a sorted run whose names are
      at least `key` keeps the run sorted. */
  lemma SortedPrepend(head: seq<Record>, tail: seq<Record>, key: string)
    requires |head| <= 1 && (|head| == 1 ==> head[0].svname == key)
    requires SortedBy(tail, RecordSvname)
    requires forall j :: 0 <= j < |tail| ==> LessEq(key, RecordSvname(tail[j]))
    ensures SortedBy(head + tail, RecordSvname)
  {
    var s := head + tail;
    forall i, j | 0 <= i < j < |s|
      ensures LessEq(RecordSvname(s[i]), RecordSvname(s[j]))
    {
      if |head| == 1 && i == 0 {
        assert s[j] == tail[j - 1];
      } else {
        assert s[i] == tail[i - |head|] && s[j] == tail[j - |head|];
      }
    }
  }

  /** Exactly the kept rows come out, with their four
      columns, whatever the other rows hold. */
  lemma GetStatsSelectsExactly(rows: seq<Row>, backend: string, rec: Record)
    requires GetStats(rows, backend).Success?
    ensures rec in GetStats(rows, backend).value <==>
            exists k :: 0 <= k < |rows| && IsServerRow(rows[k], backend) && rec == ExpectedRecord(rows[k])
  {
    var r := GetStats(rows, backend).value;
    assert rec in r <==> rec in multiset(r);
    assert rec in Expected(rows, backend) <==> rec in multiset(Expected(rows, backend));
    ExpectedMembers(rows, backend, rec);
  }
}
