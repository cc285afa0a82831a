/** The status matrix of update-lb.py's `_dump_stats`: every balancer's records
    folded into `svname -> (lb -> record)`, every balancer's backend instance id
    recorded (and checked to stay the same), and the report table with the
    status emphasis of `_format_cell`.

    The network is a parameter: `feeds[i]` is what fetching `lbs[i]`'s stats
    returned, either the parsed rows or a failure. The inner `OrderedDict` is an
    association list, `Put` keeping an existing key in its place as
    `OrderedDict` assignment does. */
module StatusMatrix {
  import opened Wrappers
  import opened Text
  import opened HaproxyStats

  // ---------------------------------------------------------------------------
  // Cell formatting (`_format_cell`).

  /** The `click.style` applied to the status text. */
  datatype Emphasis = GreenBold | Green | Yellow | YellowBold | RedBold | Red

  /** A table cell: the styled status followed by the unstyled annotation. */
  datatype Cell = Cell(emphasis: Emphasis, status: string, annotation: string)

  function Emphasize(status: string): (e: Emphasis)
    ensures e == GreenBold <==> status == "UP"
    ensures e == Green <==> status != "UP" && StartsWith(status, "UP")
    ensures e == Yellow <==> status == "DRAIN"
    ensures e == YellowBold <==> status == "MAINT"
    ensures e == RedBold <==> status == "DOWN"
    ensures e == Red <==> !StartsWith(status, "UP") && status != "DRAIN" && status != "MAINT" && status != "DOWN"
  {
    assert "DRAIN"[..2][0] == 'D' && "MAINT"[..2][0] == 'M' && "DOWN"[..2][0] == 'D';
    if status == "UP" then GreenBold
    else if StartsWith(status, "UP") then Green
    else if status == "DRAIN" then Yellow
    else if status == "MAINT" then YellowBold
    else if status == "DOWN" then RedBold
    else Red
  }

  function CellText(c: Cell): string
  {
    c.status + c.annotation
  }

  function FormatCell(rec: Record): (c: Cell)
    ensures c.emphasis == Emphasize(rec.status)
    ensures CellText(c) == rec.status <==> rec.checkStatus == ""
    ensures rec.checkStatus != "" ==> CellText(c) == rec.status + " (" + rec.checkStatus + ")"
  {
    Cell(Emphasize(rec.status), rec.status, if rec.checkStatus == "" then "" else " (" + rec.checkStatus + ")")
  }

  // ---------------------------------------------------------------------------
  // The matrix.

  /** One server's row: balancer name to the record it reported, in insertion order. */
  type Cells = seq<(string, Record)>

  type Matrix = map<string, Cells>

  datatype Dump = Dump(matrix: Matrix, iids: map<string, string>)

  const EmptyDump := Dump(map[], map[])

  datatype Fetch = Fetched(rows: seq<Row>) | Unreachable

  datatype DumpError =
    | FetchFailed(lb: string)
    | BadFeed(lb: string, column: string)
    | IidMismatch(lb: string, recorded: string, reported: string)

  function LbsOf(cells: Cells): seq<string>
  {
    if |cells| == 0 then [] else [cells[0].0] + LbsOf(cells[1..])
  }

  function Lookup(cells: Cells, lb: string): Option<Record>
  {
    if |cells| == 0 then None
    else if cells[0].0 == lb then Some(cells[0].1)
    else Lookup(cells[1..], lb)
  }

  /** `od[lb] = rec` on an `OrderedDict`. */
  function Put(cells: Cells, lb: string, rec: Record): Cells
  {
    if |cells| == 0 then [(lb, rec)]
    else if cells[0].0 == lb then [(lb, rec)] + cells[1..]
    else [cells[0]] + Put(cells[1..], lb, rec)
  }

  /** `server_stats_lb[svname]` of a `defaultdict`: empty when absent. */
  function CellsOf(m: Matrix, svname: string): Cells
  {
    if svname in m then m[svname] else []
  }

  /** The inner loop for one balancer: `assert iids.setdefault(lb, iid) == iid`,
      then `server_stats_lb[svname][lb] = entry`, entry by entry. */
  function AddEntries(d: Dump, lb: string, entries: seq<Record>): Result<Dump, DumpError>
    decreases |entries|
  {
    if |entries| == 0 then Success(d)
    else
      var e := entries[0];
      if lb in d.iids && d.iids[lb] != e.iid then Failure(IidMismatch(lb, d.iids[lb], e.iid))
      else
        var iids := if lb in d.iids then d.iids else d.iids[lb := e.iid];
        var matrix := d.matrix[e.svname := Put(CellsOf(d.matrix, e.svname), lb, e)];
        AddEntries(Dump(matrix, iids), lb, entries[1..])
  }

  /** The outer loop: fetch each balancer's stats in turn and fold them in. */
  function Aggregate(d: Dump, lbs: seq<string>, feeds: seq<Fetch>, backend: string): Result<Dump, DumpError>
    requires |feeds| == |lbs|
    decreases |lbs|
  {
    if |lbs| == 0 then Success(d)
    else
      match feeds[0]
      case Unreachable => Failure(FetchFailed(lbs[0]))
      case Fetched(rows) =>
        match GetStats(rows, backend)
        case Failure(c) => Failure(BadFeed(lbs[0], c))
        case Success(entries) =>
          match AddEntries(d, lbs[0], entries)
          case Failure(err) => Failure(err)
          case Success(d') => Aggregate(d', lbs[1..], feeds[1..], backend)
  }

  /** Every balancer's records, when every fetch succeeds and parses. */
  function CollectStats(feeds: seq<Fetch>, backend: string): Option<seq<seq<Record>>>
  {
    if |feeds| == 0 then Some([])
    else if feeds[0].Unreachable? || GetStats(feeds[0].rows, backend).Failure? then None
    else match CollectStats(feeds[1..], backend)
      case None => None
      case Some(rest) => Some([GetStats(feeds[0].rows, backend).value] + rest)
  }

  /** The fold over records already fetched. */
  function Merge(d: Dump, lbs: seq<string>, stats: seq<seq<Record>>): Result<Dump, DumpError>
    requires |stats| == |lbs|
    decreases |lbs|
  {
    if |lbs| == 0 then Success(d)
    else
      match AddEntries(d, lbs[0], stats[0])
      case Failure(err) => Failure(err)
      case Success(d') => Merge(d', lbs[1..], stats[1..])
  }

  /** A round is all-or-nothing: it fails when some fetch fails, and otherwise
      it is the fold over the fetched records. */
  lemma {:induction false} AggregateIsMerge(d: Dump, lbs: seq<string>, feeds: seq<Fetch>, backend: string)
    requires |feeds| == |lbs|
    ensures CollectStats(feeds, backend).None? ==> Aggregate(d, lbs, feeds, backend).Failure?
    ensures CollectStats(feeds, backend).Some? ==>
              |CollectStats(feeds, backend).value| == |lbs| &&
              Aggregate(d, lbs, feeds, backend) == Merge(d, lbs, CollectStats(feeds, backend).value)
    decreases |lbs|
  {
    if |lbs| > 0 && feeds[0].Fetched? && GetStats(feeds[0].rows, backend).Success? {
      var entries := GetStats(feeds[0].rows, backend).value;
      match AddEntries(d, lbs[0], entries)
      case Failure(_) =>
        if CollectStats(feeds, backend).Some? {
          AggregateIsMerge(d, lbs[1..], feeds[1..], backend);
        }
      case Success(d') =>
        AggregateIsMerge(d', lbs[1..], feeds[1..], backend);
    }
  }

  // ---------------------------------------------------------------------------
  // Backend instance ids: the first record from a balancer fixes its id, and
  // every later record from that balancer must carry the same id.

  function PairsOf(lb: string, entries: seq<Record>): seq<(string, string)>
  {
    if |entries| == 0 then [] else [(lb, entries[0].iid)] + PairsOf(lb, entries[1..])
  }

  /** Every (balancer, reported iid) pair, in the order the loops visit them. */
  function Pairs(lbs: seq<string>, stats: seq<seq<Record>>): seq<(string, string)>
    requires |stats| == |lbs|
  {
    if |lbs| == 0 then [] else PairsOf(lbs[0], stats[0]) + Pairs(lbs[1..], stats[1..])
  }

  /** `iids.setdefault(lb, iid)` applied to every pair. */
  function RecordIids(iids: map<string, string>, pairs: seq<(string, string)>): map<string, string>
    decreases |pairs|
  {
    if |pairs| == 0 then iids
    else RecordIids(if pairs[0].0 in iids then iids else iids[pairs[0].0 := pairs[0].1], pairs[1..])
  }

  /** No pair disagrees with a recorded id or with another pair of its balancer. */
  ghost predicate Consistent(iids: map<string, string>, pairs: seq<(string, string)>)
  {
    forall p :: p in pairs ==>
      && (p.0 in iids ==> iids[p.0] == p.1)
      && (forall q :: q in pairs && q.0 == p.0 ==> q.1 == p.1)
  }

  lemma ConsistentCons(iids: map<string, string>, p: (string, string), rest: seq<(string, string)>)
    ensures Consistent(iids, [p] + rest) <==>
            (p.0 in iids ==> iids[p.0] == p.1) &&
            Consistent(if p.0 in iids then iids else iids[p.0 := p.1], rest)
  {
    var pairs := [p] + rest;
    var iids' := if p.0 in iids then iids else iids[p.0 := p.1];
    if Consistent(iids, pairs) {
      forall q | q in rest
        ensures q.0 in iids' ==> iids'[q.0] == q.1
      {
        assert q in pairs && p in pairs;
      }
    }
    if (p.0 in iids ==> iids[p.0] == p.1) && Consistent(iids', rest) {
      forall q | q in pairs
        ensures q.0 in iids ==> iids[q.0] == q.1
        ensures forall q' :: q' in pairs && q'.0 == q.0 ==> q'.1 == q.1
      {
        if q != p {
          assert q in rest;
        }
      }
    }
  }

  lemma {:induction false} ConsistentAppend(iids: map<string, string>, a: seq<(string, string)>, b: seq<(string, string)>)
    ensures Consistent(iids, a + b) <==> Consistent(iids, a) && Consistent(RecordIids(iids, a), b)
    decreases |a|
  {
    if |a| == 0 {
      assert a + b == b;
    } else {
      var iids' := if a[0].0 in iids then iids else iids[a[0].0 := a[0].1];
      assert a + b == [a[0]] + (a[1..] + b);
      assert a == [a[0]] + a[1..];
      ConsistentCons(iids, a[0], a[1..] + b);
      ConsistentCons(iids, a[0], a[1..]);
      ConsistentAppend(iids', a[1..], b);
    }
  }

  lemma {:induction false} AddEntriesIids(d: Dump, lb: string, entries: seq<Record>)
    ensures AddEntries(d, lb, entries).Success? <==> Consistent(d.iids, PairsOf(lb, entries))
    ensures AddEntries(d, lb, entries).Success? ==>
              AddEntries(d, lb, entries).value.iids == RecordIids(d.iids, PairsOf(lb, entries))
    decreases |entries|
  {
    if |entries| > 0 {
      var e := entries[0];
      var iids := if lb in d.iids then d.iids else d.iids[lb := e.iid];
      var matrix := d.matrix[e.svname := Put(CellsOf(d.matrix, e.svname), lb, e)];
      ConsistentCons(d.iids, (lb, e.iid), PairsOf(lb, entries[1..]));
      AddEntriesIids(Dump(matrix, iids), lb, entries[1..]);
    }
  }

  lemma {:induction false} MergeIids(d: Dump, lbs: seq<string>, stats: seq<seq<Record>>)
    requires |stats| == |lbs|
    ensures Merge(d, lbs, stats).Success? <==> Consistent(d.iids, Pairs(lbs, stats))
    ensures Merge(d, lbs, stats).Success? ==> Merge(d, lbs, stats).value.iids == RecordIids(d.iids, Pairs(lbs, stats))
    decreases |lbs|
  {
    if |lbs| > 0 {
      AddEntriesIids(d, lbs[0], stats[0]);
      ConsistentAppend(d.iids, PairsOf(lbs[0], stats[0]), Pairs(lbs[1..], stats[1..]));
      RecordAppend(d.iids, PairsOf(lbs[0], stats[0]), Pairs(lbs[1..], stats[1..]));
      if AddEntries(d, lbs[0], stats[0]).Success? {
        MergeIids(AddEntries(d, lbs[0], stats[0]).value, lbs[1..], stats[1..]);
      }
    }
  }

  lemma {:induction false} RecordAppend(iids: map<string, string>, a: seq<(string, string)>, b: seq<(string, string)>)
    ensures RecordIids(iids, a + b) == RecordIids(RecordIids(iids, a), b)
    decreases |a|
  {
    if |a| == 0 {
      assert a + b == b;
    } else {
      assert (a + b)[1..] == a[1..] + b;
      RecordAppend(if a[0].0 in iids then iids else iids[a[0].0 := a[0].1], a[1..], b);
    }
  }

  /** `iids` records `iid` for balancer `lb`. */
  predicate RecordedAs(iids: map<string, string>, lb: string, iid: string)
  {
    lb in iids && iids[lb] == iid
  }

  /** What the recorded ids are once every pair agreed. */
  lemma {:induction false} RecordOfConsistent(iids: map<string, string>, pairs: seq<(string, string)>)
    requires Consistent(iids, pairs)
    ensures forall p :: p in pairs ==> RecordedAs(RecordIids(iids, pairs), p.0, p.1)
    ensures forall lb :: lb in RecordIids(iids, pairs) <==> lb in iids || exists p :: p in pairs && p.0 == lb
    ensures forall lb :: lb in iids ==> RecordIids(iids, pairs)[lb] == iids[lb]
    decreases |pairs|
  {
    if |pairs| > 0 {
      var p := pairs[0];
      var iids' := if p.0 in iids then iids else iids[p.0 := p.1];
      ConsistentCons(iids, p, pairs[1..]);
      assert pairs == [p] + pairs[1..];
      RecordOfConsistent(iids', pairs[1..]);
      forall q | q in pairs
        ensures RecordedAs(RecordIids(iids, pairs), q.0, q.1)
      {
        if q != p {
          assert q in pairs[1..];
        } else {
          assert p.0 in iids';
        }
      }
    }
  }

  lemma {:induction false} PairsOfMembers(lb: string, entries: seq<Record>, p: (string, string))
    ensures p in PairsOf(lb, entries) <==> exists k :: 0 <= k < |entries| && p == (lb, entries[k].iid)
  {
    if |entries| > 0 {
      PairsOfMembers(lb, entries[1..], p);
      if exists k :: 0 <= k < |entries| && p == (lb, entries[k].iid) {
        var k :| 0 <= k < |entries| && p == (lb, entries[k].iid);
        if k > 0 {
          assert entries[1..][k - 1] == entries[k];
        }
      }
    }
  }

  lemma {:induction false} PairsMembers(lbs: seq<string>, stats: seq<seq<Record>>, p: (string, string))
    requires |stats| == |lbs|
    ensures p in Pairs(lbs, stats) <==>
            exists i, k :: 0 <= i < |lbs| && 0 <= k < |stats[i]| && p == (lbs[i], stats[i][k].iid)
  {
    if |lbs| > 0 {
      PairsOfMembers(lbs[0], stats[0], p);
      PairsMembers(lbs[1..], stats[1..], p);
      if exists i, k :: 0 <= i < |lbs| && 0 <= k < |stats[i]| && p == (lbs[i], stats[i][k].iid) {
        var i, k :| 0 <= i < |lbs| && 0 <= k < |stats[i]| && p == (lbs[i], stats[i][k].iid);
        if i > 0 {
          assert lbs[1..][i - 1] == lbs[i] && stats[1..][i - 1] == stats[i];
        }
      }
    }
  }

  /** A round succeeds exactly when every balancer reports
      one iid for all its records (across repeated visits too), and then the
      recorded id of each balancer is that id. */
  lemma MergeIidsByIndex(lbs: seq<string>, stats: seq<seq<Record>>)
    requires |stats| == |lbs|
    ensures Merge(EmptyDump, lbs, stats).Success? <==>
            forall i, k, j, l ::
              0 <= i < |lbs| && 0 <= k < |stats[i]| && 0 <= j < |lbs| && 0 <= l < |stats[j]| && lbs[i] == lbs[j]
              ==> stats[i][k].iid == stats[j][l].iid
    ensures Merge(EmptyDump, lbs, stats).Success? ==>
            forall i, k :: 0 <= i < |lbs| && 0 <= k < |stats[i]| ==>
              RecordedAs(Merge(EmptyDump, lbs, stats).value.iids, lbs[i], stats[i][k].iid)
  {
    var pairs := Pairs(lbs, stats);
    MergeIids(EmptyDump, lbs, stats);
    forall p | p in pairs
      ensures exists i, k :: 0 <= i < |lbs| && 0 <= k < |stats[i]| && p == (lbs[i], stats[i][k].iid)
    {
      PairsMembers(lbs, stats, p);
    }
    forall i, k | 0 <= i < |lbs| && 0 <= k < |stats[i]|
      ensures (lbs[i], stats[i][k].iid) in pairs
    {
      PairsMembers(lbs, stats, (lbs[i], stats[i][k].iid));
    }
    assert EmptyDump.iids == map[];
    if Merge(EmptyDump, lbs, stats).Success? {
      MergeRecordedIids(lbs, stats, pairs, Merge(EmptyDump, lbs, stats).value.iids);
    }
  }

  lemma MergeRecordedIids(lbs: seq<string>, stats: seq<seq<Record>>, pairs: seq<(string, string)>,
                          recorded: map<string, string>)
    requires |stats| == |lbs|
    requires Consistent(map[], pairs) && recorded == RecordIids(map[], pairs)
    requires forall i, k :: 0 <= i < |lbs| && 0 <= k < |stats[i]| ==> (lbs[i], stats[i][k].iid) in pairs
    ensures forall i, k :: 0 <= i < |lbs| && 0 <= k < |stats[i]| ==>
              RecordedAs(recorded, lbs[i], stats[i][k].iid)
  {
    RecordOfConsistent(map[], pairs);
  }

  // ---------------------------------------------------------------------------
  // Matrix cells: with distinct balancers, cell [svname][lb] is the record lb
  // reported last for svname, and the balancers of a row follow `lbs` order.

  /** The record `entries` holds last for `svname`, when there is one. */
  function LastWith(entries: seq<Record>, svname: string): Option<Record>
  {
    if |entries| == 0 then None
    else if entries[|entries| - 1].svname == svname then Some(entries[|entries| - 1])
    else LastWith(entries[..|entries| - 1], svname)
  }

  function Cell1(lb: string, o: Option<Record>): Cells
  {
    if o.Some? then [(lb, o.value)] else []
  }

  /** Reference definition of one matrix row. */
  function RowRef(lbs: seq<string>, stats: seq<seq<Record>>, svname: string): Cells
    requires |stats| == |lbs|
  {
    if |lbs| == 0 then []
    else Cell1(lbs[0], LastWith(stats[0], svname)) + RowRef(lbs[1..], stats[1..], svname)
  }

  ghost predicate Distinct(lbs: seq<string>)
  {
    forall i, j :: 0 <= i < j < |lbs| ==> lbs[i] != lbs[j]
  }

  ghost predicate NoEmptyRows(m: Matrix)
  {
    forall sv :: sv in m ==> m[sv] != []
  }

  lemma {:induction false} LbsOfAppend(a: Cells, b: Cells)
    ensures LbsOf(a + b) == LbsOf(a) + LbsOf(b)
  {
    if |a| == 0 {
      assert a + b == b;
    } else {
      assert (a + b)[1..] == a[1..] + b;
      LbsOfAppend(a[1..], b);
    }
  }

  lemma {:induction false} PutAppends(base: Cells, lb: string, rec: Record)
    requires lb !in LbsOf(base)
    ensures Put(base, lb, rec) == base + [(lb, rec)]
  {
    if |base| > 0 {
      PutAppends(base[1..], lb, rec);
      assert base == [base[0]] + base[1..];
    }
  }

  /** Assigning an existing key keeps its position and every other entry. */
  lemma {:induction false} PutReplacesInPlace(base: Cells, lb: string, prev: Record, rest: Cells, rec: Record)
    requires lb !in LbsOf(base)
    ensures Put(base + [(lb, prev)] + rest, lb, rec) == base + [(lb, rec)] + rest
  {
    if |base| == 0 {
      assert base + [(lb, prev)] + rest == [(lb, prev)] + rest;
      assert base + [(lb, rec)] + rest == [(lb, rec)] + rest;
    } else {
      assert (base + [(lb, prev)] + rest)[1..] == base[1..] + [(lb, prev)] + rest;
      assert base + [(lb, rec)] + rest == [base[0]] + (base[1..] + [(lb, rec)] + rest);
      PutReplacesInPlace(base[1..], lb, prev, rest, rec);
    }
  }

  lemma LastWithSnoc(pre: seq<Record>, e: Record, svname: string)
    ensures LastWith(pre + [e], svname) == if e.svname == svname then Some(e) else LastWith(pre, svname)
  {
    assert (pre + [e])[..|pre|] == pre;
  }

  /** One record folded into one row: the row of `e.svname` gets `lb`'s cell
      replaced or appended, every other row is unchanged. */
  lemma AddOneCell(m: Matrix, lb: string, pre: seq<Record>, e: Record, base: Matrix, sv: string)
    requires lb !in LbsOf(CellsOf(base, sv))
    requires CellsOf(m, sv) == CellsOf(base, sv) + Cell1(lb, LastWith(pre, sv))
    ensures CellsOf(m[e.svname := Put(CellsOf(m, e.svname), lb, e)], sv) ==
            CellsOf(base, sv) + Cell1(lb, LastWith(pre + [e], sv))
  {
    LastWithSnoc(pre, e, sv);
    if sv == e.svname {
      assert CellsOf(m[e.svname := Put(CellsOf(m, e.svname), lb, e)], sv) == Put(CellsOf(m, sv), lb, e);
      var o := LastWith(pre, sv);
      if o.Some? {
        PutReplacesInPlace(CellsOf(base, sv), lb, o.value, [], e);
        assert CellsOf(base, sv) + [(lb, o.value)] + [] == CellsOf(base, sv) + [(lb, o.value)];
        assert CellsOf(base, sv) + [(lb, e)] + [] == CellsOf(base, sv) + [(lb, e)];
      } else {
        assert CellsOf(base, sv) + [] == CellsOf(base, sv);
        assert CellsOf(m, sv) == CellsOf(base, sv);
        PutAppends(CellsOf(base, sv), lb, e);
        assert Cell1(lb, LastWith(pre + [e], sv)) == [(lb, e)];
      }
    }
  }

  /** The row of one server after a balancer's records are folded in. */
  lemma {:induction false} AddEntriesRow(d: Dump, lb: string, pre: seq<Record>, entries: seq<Record>, base: Matrix, sv: string)
    requires lb !in LbsOf(CellsOf(base, sv))
    requires CellsOf(d.matrix, sv) == CellsOf(base, sv) + Cell1(lb, LastWith(pre, sv))
    requires AddEntries(d, lb, entries).Success?
    ensures CellsOf(AddEntries(d, lb, entries).value.matrix, sv) ==
            CellsOf(base, sv) + Cell1(lb, LastWith(pre + entries, sv))
    decreases |entries|
  {
    if |entries| == 0 {
      assert pre + entries == pre;
    } else {
      var e := entries[0];
      var iids := if lb in d.iids then d.iids else d.iids[lb := e.iid];
      var matrix := d.matrix[e.svname := Put(CellsOf(d.matrix, e.svname), lb, e)];
      AddOneCell(d.matrix, lb, pre, e, base, sv);
      assert (pre + [e]) + entries[1..] == pre + entries;
      AddEntriesRow(Dump(matrix, iids), lb, pre + [e], entries[1..], base, sv);
    }
  }

  /** Folding records in never leaves a server with an empty row. */
  lemma {:induction false} AddEntriesNonEmpty(d: Dump, lb: string, entries: seq<Record>)
    requires NoEmptyRows(d.matrix)
    requires AddEntries(d, lb, entries).Success?
    ensures NoEmptyRows(AddEntries(d, lb, entries).value.matrix)
    decreases |entries|
  {
    if |entries| > 0 {
      var e := entries[0];
      var iids := if lb in d.iids then d.iids else d.iids[lb := e.iid];
      var cells := CellsOf(d.matrix, e.svname);
      assert Put(cells, lb, e) != [] by {
        if |cells| > 0 {
          assert |Put(cells, lb, e)| >= 1;
        }
      }
      var matrix := d.matrix[e.svname := Put(cells, lb, e)];
      AddEntriesNonEmpty(Dump(matrix, iids), lb, entries[1..]);
    }
  }

  lemma AddEntriesCells(d: Dump, lb: string, pre: seq<Record>, entries: seq<Record>, base: Matrix)
    requires forall sv :: lb !in LbsOf(CellsOf(base, sv))
    requires forall sv :: CellsOf(d.matrix, sv) == CellsOf(base, sv) + Cell1(lb, LastWith(pre, sv))
    requires NoEmptyRows(d.matrix)
    requires AddEntries(d, lb, entries).Success?
    ensures NoEmptyRows(AddEntries(d, lb, entries).value.matrix)
    ensures forall sv :: CellsOf(AddEntries(d, lb, entries).value.matrix, sv) ==
                         CellsOf(base, sv) + Cell1(lb, LastWith(pre + entries, sv))
  {
    AddEntriesNonEmpty(d, lb, entries);
    forall sv
      ensures CellsOf(AddEntries(d, lb, entries).value.matrix, sv) ==
              CellsOf(base, sv) + Cell1(lb, LastWith(pre + entries, sv))
    {
      AddEntriesRow(d, lb, pre, entries, base, sv);
    }
  }

  lemma {:induction false} MergeCells(d: Dump, lbs: seq<string>, stats: seq<seq<Record>>)
    requires |stats| == |lbs|
    requires Distinct(lbs)
    requires forall sv, lb :: lb in lbs ==> lb !in LbsOf(CellsOf(d.matrix, sv))
    requires NoEmptyRows(d.matrix)
    requires Merge(d, lbs, stats).Success?
    ensures NoEmptyRows(Merge(d, lbs, stats).value.matrix)
    ensures forall sv :: CellsOf(Merge(d, lbs, stats).value.matrix, sv) == CellsOf(d.matrix, sv) + RowRef(lbs, stats, sv)
    decreases |lbs|
  {
    if |lbs| == 0 {
      assert forall sv :: CellsOf(d.matrix, sv) + [] == CellsOf(d.matrix, sv);
    } else {
      var d' := MergeFirst(d, lbs, stats);
      MergeCells(d', lbs[1..], stats[1..]);
      var m := Merge(d', lbs[1..], stats[1..]).value.matrix;
      assert Merge(d, lbs, stats).value.matrix == m;
      forall sv
        ensures CellsOf(m, sv) == CellsOf(d.matrix, sv) + RowRef(lbs, stats, sv)
      {
        RowRefCons(CellsOf(d.matrix, sv), CellsOf(d'.matrix, sv), lbs, stats, sv);
      }
    }
  }

  lemma RowRefCons(base: Cells, mid: Cells, lbs: seq<string>, stats: seq<seq<Record>>, sv: string)
    requires |stats| == |lbs| && |lbs| > 0
    requires mid == base + Cell1(lbs[0], LastWith(stats[0], sv))
    ensures mid + RowRef(lbs[1..], stats[1..], sv) == base + RowRef(lbs, stats, sv)
  {
    var head := Cell1(lbs[0], LastWith(stats[0], sv));
    var tail := RowRef(lbs[1..], stats[1..], sv);
    assert RowRef(lbs, stats, sv) == head + tail;
    assert (base + head) + tail == base + (head + tail);
  }

  /** The first balancer's records, folded in, append its cells to the rows. */
  lemma MergeFirst(d: Dump, lbs: seq<string>, stats: seq<seq<Record>>) returns (d': Dump)
    requires |stats| == |lbs| && |lbs| > 0
    requires Distinct(lbs)
    requires forall sv, lb :: lb in lbs ==> lb !in LbsOf(CellsOf(d.matrix, sv))
    requires NoEmptyRows(d.matrix)
    requires Merge(d, lbs, stats).Success?
    ensures AddEntries(d, lbs[0], stats[0]) == Success(d')
    ensures Merge(d', lbs[1..], stats[1..]) == Merge(d, lbs, stats)
    ensures NoEmptyRows(d'.matrix)
    ensures forall sv :: CellsOf(d'.matrix, sv) == CellsOf(d.matrix, sv) + Cell1(lbs[0], LastWith(stats[0], sv))
    ensures forall sv, lb :: lb in lbs[1..] ==> lb !in LbsOf(CellsOf(d'.matrix, sv))
  {
    var lb := lbs[0];
    assert lb in lbs;
    assert forall sv :: CellsOf(d.matrix, sv) == CellsOf(d.matrix, sv) + Cell1(lb, LastWith([], sv));
    assert [] + stats[0] == stats[0];
    AddEntriesCells(d, lb, [], stats[0], d.matrix);
    d' := AddEntries(d, lb, stats[0]).value;
    forall sv, lb' | lb' in lbs[1..]
      ensures lb' !in LbsOf(CellsOf(d'.matrix, sv))
    {
      LbsOfAppend(CellsOf(d.matrix, sv), Cell1(lb, LastWith(stats[0], sv)));
      var i :| 0 <= i < |lbs[1..]| && lbs[1..][i] == lb';
      assert lbs[i + 1] == lb';
      assert lb' in lbs;
    }
  }

  /** The matrix row of a server is exactly the reference
      row, present exactly when some balancer reported that server. */
  lemma MatrixRows(lbs: seq<string>, stats: seq<seq<Record>>)
    requires |stats| == |lbs|
    requires Distinct(lbs)
    requires Merge(EmptyDump, lbs, stats).Success?
    ensures forall sv :: sv in Merge(EmptyDump, lbs, stats).value.matrix <==> RowRef(lbs, stats, sv) != []
    ensures forall sv :: sv in Merge(EmptyDump, lbs, stats).value.matrix ==>
                         Merge(EmptyDump, lbs, stats).value.matrix[sv] == RowRef(lbs, stats, sv)
  {
    MergeCells(EmptyDump, lbs, stats);
    var m := Merge(EmptyDump, lbs, stats).value.matrix;
    forall sv
      ensures CellsOf(m, sv) == RowRef(lbs, stats, sv)
    {
      assert CellsOf(EmptyDump.matrix, sv) == [];
      assert [] + RowRef(lbs, stats, sv) == RowRef(lbs, stats, sv);
    }
  }

  /** Within the reference row, balancer `lbs[i]` holds what it reported last. */
  lemma {:induction false} RowRefLookup(lbs: seq<string>, stats: seq<seq<Record>>, svname: string, i: int)
    requires |stats| == |lbs|
    requires Distinct(lbs)
    requires 0 <= i < |lbs|
    ensures Lookup(RowRef(lbs, stats, svname), lbs[i]) == LastWith(stats[i], svname)
  {
    var head := Cell1(lbs[0], LastWith(stats[0], svname));
    var tail := RowRef(lbs[1..], stats[1..], svname);
    if i == 0 {
      if head == [] {
        RowRefMissing(lbs[1..], stats[1..], svname, lbs[0]);
      }
    } else {
      assert lbs[1..][i - 1] == lbs[i] && stats[1..][i - 1] == stats[i];
      RowRefLookup(lbs[1..], stats[1..], svname, i - 1);
    }
    if head != [] {
      assert (head + tail)[0] == head[0];
      assert (head + tail)[1..] == tail;
    } else {
      assert head + tail == tail;
    }
  }

  lemma {:induction false} RowRefMissing(lbs: seq<string>, stats: seq<seq<Record>>, svname: string, lb: string)
    requires |stats| == |lbs|
    requires lb !in lbs
    ensures Lookup(RowRef(lbs, stats, svname), lb) == None
  {
    if |lbs| > 0 {
      assert lbs[0] != lb;
      RowRefMissing(lbs[1..], stats[1..], svname, lb);
      var head := Cell1(lbs[0], LastWith(stats[0], svname));
      var tail := RowRef(lbs[1..], stats[1..], svname);
      if head != [] {
        assert (head + tail)[1..] == tail;
      } else {
        assert head + tail == tail;
      }
    }
  }

  // ---------------------------------------------------------------------------
  // The report table.

  datatype TableRow = TableRow(server: string, cells: seq<Cell>)

  datatype Table = Table(title: string, header: seq<string>, rows: seq<TableRow>)

  function FormatCells(cells: Cells): (r: seq<Cell>)
    ensures |r| == |cells|
    ensures forall k :: 0 <= k < |cells| ==> r[k] == FormatCell(cells[k].1)
  {
    if |cells| == 0 then [] else [FormatCell(cells[0].1)] + FormatCells(cells[1..])
  }

  function RowFor(m: Matrix, svname: string): TableRow
  {
    TableRow(svname, FormatCells(CellsOf(m, svname)))
  }

  /** The table `_dump_stats` prints: a header of balancers, then one row per
      server in name order, each with the cells of the balancers that reported it. */
  function RowsFor(m: Matrix, names: seq<string>): seq<TableRow>
  {
    if |names| == 0 then [] else [RowFor(m, names[0])] + RowsFor(m, names[1..])
  }

  lemma {:induction false} RowsForAt(m: Matrix, names: seq<string>)
    ensures |RowsFor(m, names)| == |names|
    ensures forall k :: 0 <= k < |names| ==> RowsFor(m, names)[k] == RowFor(m, names[k])
  {
    if |names| > 0 {
      RowsForAt(m, names[1..]);
    }
  }

  function Render(title: string, lbs: seq<string>, m: Matrix): Table
  {
    Table(title, ["Server"] + lbs, RowsFor(m, SortedElements(m.Keys)))
  }

  /** One row per server, in strictly increasing name
      order, each holding the formatted cells of that server's matrix row. */
  lemma RenderRows(title: string, lbs: seq<string>, m: Matrix)
    ensures Render(title, lbs, m).header == ["Server"] + lbs
    ensures var rows := Render(title, lbs, m).rows;
      && |rows| == |m|
      && (forall k, l :: 0 <= k < l < |rows| ==> Less(rows[k].server, rows[l].server))
      && (forall sv :: sv in m <==> exists k :: 0 <= k < |rows| && rows[k].server == sv)
      && (forall k :: 0 <= k < |rows| ==> rows[k].server in m && rows[k].cells == FormatCells(m[rows[k].server]))
  {
    var rows := Render(title, lbs, m).rows;
    RenderServers(m, rows);
    forall sv | sv in m
      ensures exists k :: 0 <= k < |rows| && rows[k].server == sv
    {
      RenderFinds(m, rows, sv);
    }
  }

  /** Row `k` of the table is the row of the `k`-th name. */
  lemma RenderServers(m: Matrix, rows: seq<TableRow>)
    requires rows == RowsFor(m, SortedElements(m.Keys))
    ensures |rows| == |m|
    ensures forall k, l :: 0 <= k < l < |rows| ==> Less(rows[k].server, rows[l].server)
    ensures forall k :: 0 <= k < |rows| ==> rows[k].server in m && rows[k].cells == FormatCells(m[rows[k].server])
  {
    var names := SortedElements(m.Keys);
    RowsForAt(m, names);
    assert |m.Keys| == |m|;
    forall k | 0 <= k < |names|
      ensures rows[k].server == names[k] && names[k] in m
    {
      assert names[k] in names;
    }
  }

  lemma RenderFinds(m: Matrix, rows: seq<TableRow>, sv: string)
    requires rows == RowsFor(m, SortedElements(m.Keys))
    requires sv in m
    ensures exists k :: 0 <= k < |rows| && rows[k].server == sv
  {
    var names := SortedElements(m.Keys);
    RowsForAt(m, names);
    assert sv in names;
    var k :| 0 <= k < |names| && names[k] == sv;
    assert rows[k].server == sv;
  }

  /** The loop `for svname, data in sorted(server_stats_lb.items())`, over the
      sorted names. */
  method FormatRows(m: Matrix, names: seq<string>) returns (rows: seq<TableRow>)
    ensures rows == RowsFor(m, names)
  {
    rows := [];
    var k := 0;
    while k < |names|
      invariant 0 <= k <= |names|
      invariant |rows| == k
      invariant forall j :: 0 <= j < k ==> rows[j] == RowFor(m, names[j])
    {
      rows := rows + [RowFor(m, names[k])];
      k := k + 1;
    }
    RowsForAt(m, names);
  }

  method BuildTable(title: string, lbs: seq<string>, m: Matrix) returns (t: Table)
    ensures t == Render(title, lbs, m)
  {
    var rows := FormatRows(m, SortedElements(m.Keys));
    t := Table(title, ["Server"] + lbs, rows);
  }

  /** `_dump_stats(lbs, cluster_config, title)`, with the fetched feeds given. */
  method DumpStats(lbs: seq<string>, feeds: seq<Fetch>, backend: string, title: string)
    returns (res: Result<(Dump, Table), DumpError>)
    requires |feeds| == |lbs|
    ensures var spec := Aggregate(EmptyDump, lbs, feeds, backend);
            && (res.Success? <==> spec.Success?)
            && (res.Failure? ==> res.error == spec.error)
            && (res.Success? ==> res.value == (spec.value, Render(title, lbs, spec.value.matrix)))
  {
    var matrix: Matrix := map[];
    var iids: map<string, string> := map[];
    var i := 0;
    while i < |lbs|
      invariant 0 <= i <= |lbs|
      invariant Aggregate(EmptyDump, lbs, feeds, backend) == Aggregate(Dump(matrix, iids), lbs[i..], feeds[i..], backend)
    {
      var lb := lbs[i];
      if feeds[i].Unreachable? {
        res := Failure(FetchFailed(lb));
        return;
      }
      var stats := GetStats(feeds[i].rows, backend);
      if stats.Failure? {
        res := Failure(BadFeed(lb, stats.error));
        return;
      }
      var entries := stats.value;
      ghost var start := Dump(matrix, iids);
      var j := 0;
      while j < |entries|
        invariant 0 <= j <= |entries|
        invariant AddEntries(start, lb, entries) == AddEntries(Dump(matrix, iids), lb, entries[j..])
      {
        var entry := entries[j];
        assert entries[j..][1..] == entries[j + 1..];
        if lb in iids && iids[lb] != entry.iid {
          res := Failure(IidMismatch(lb, iids[lb], entry.iid));
          return;
        }
        if lb !in iids {
          iids := iids[lb := entry.iid];
        }
        matrix := matrix[entry.svname := Put(CellsOf(matrix, entry.svname), lb, entry)];
        j := j + 1;
      }
      assert lbs[i..][1..] == lbs[i + 1..] && feeds[i..][1..] == feeds[i + 1..];
      i := i + 1;
    }
    var table := BuildTable(title, lbs, matrix);
    res := Success((Dump(matrix, iids), table));
  }
}
