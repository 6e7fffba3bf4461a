/**
  Incremental pull from a peer (app/pull.py): the paged, newest-first fetch that stops at
  the watermark, and the run that imports oldest-first and moves the watermark on.

  A remote JSON value is what the code reads of it: its `str` and what `float` makes of it.
  How a text parses as a number or a date is a parameter.
*/
module Pull {
  import opened Texts
  import opened Wrappers

  datatype Raw = Raw(shown: string, number: Option<real>)

  datatype Kind = Auto | Date | Text

  datatype Parsers = Parsers(number: string -> Option<real>, date: string -> Option<real>)

  /** A sort key: absent, then numbers and dates, then texts. */
  datatype Key = Key(rank: int, number: real, text: string)

  datatype Outcome = Imported | Skipped | Failed

  /** A remote record: its cursor, and what the local write makes of it. */
  datatype Record = Record(cursor: Option<Raw>, outcome: Outcome)

  // ---------------------------------------------------------------- cursor order

  predicate Less(a: Key, b: Key) {
    a.rank < b.rank || (a.rank == b.rank && (a.number < b.number || (a.number == b.number && Before(a.text, b.text))))
  }

  function CursorKey(p: Parsers, kind: Kind, v: Option<Raw>): Key {
    if v.None? then Key(0, 0.0, "")
    else
      var parsed := match kind
        case Date => p.date(v.value.shown)
        case Text => None
        case Auto => v.value.number;
      if parsed.Some? then Key(1, parsed.value, "") else Key(2, 0.0, v.value.shown)
  }

  function MarkKey(p: Parsers, kind: Kind, mark: string): Key {
    CursorKey(p, kind, Some(Raw(mark, p.number(mark))))
  }

  predicate Blank(mark: Option<string>) {
    mark.None? || mark.value == ""
  }

  /** `_greater`: the cursor is strictly after the watermark. */
  predicate After(p: Parsers, kind: Kind, cursor: Option<Raw>, mark: Option<string>) {
    Blank(mark) || (cursor.Some? && Less(MarkKey(p, kind, mark.value), CursorKey(p, kind, cursor)))
  }

  /** Texts that are no number or date come after those that are, which compare by value; other texts compare as such. */
  ghost predicate Later(x: string, a: Option<real>, y: string, b: Option<real>) {
    || (a.None? && b.Some?)
    || (a.Some? && b.Some? && a.value > b.value)
    || (a.None? && b.None? && Before(y, x))
  }

  /**
    Which cursors are new: all while there is no watermark, none that is missing after
    that, and otherwise those later than the watermark, as dates, as texts, or as numbers
    where they are some.
  */
  lemma AfterIff(p: Parsers, kind: Kind, v: Raw, mark: string)
    ensures forall cursor :: After(p, kind, cursor, None) && After(p, kind, cursor, Some(""))
    ensures mark != "" ==> !After(p, kind, None, Some(mark))
    ensures mark != "" ==> (After(p, Date, Some(v), Some(mark)) <==> Later(v.shown, p.date(v.shown), mark, p.date(mark)))
    ensures mark != "" ==> (After(p, Auto, Some(v), Some(mark)) <==> Later(v.shown, v.number, mark, p.number(mark)))
    ensures mark != "" ==> (After(p, Kind.Text, Some(v), Some(mark)) <==> Before(mark, v.shown))
  {
    LessIsTotal(Key(1, 0.0, ""), Key(1, 0.0, ""));
  }

  /** `_advance`. */
  function Advance(p: Parsers, kind: Kind, mark: Option<string>, cursor: Option<Raw>): Option<string> {
    if cursor.Some? && After(p, kind, cursor, mark) then Some(cursor.value.shown) else mark
  }

  lemma LessIsTotal(a: Key, b: Key)
    ensures !Less(a, a)
    ensures a != b ==> (Less(a, b) <==> !Less(b, a))
  {
    Total(a.text, b.text);
  }

  lemma LessIsTransitive(a: Key, b: Key, c: Key)
    requires Less(a, b) && Less(b, c)
    ensures Less(a, c)
  {
    if Before(a.text, b.text) && Before(b.text, c.text) {
      Transitive(a.text, b.text, c.text);
    }
  }

  /** a <= b and b < c. */
  lemma NotLessThenLess(a: Key, b: Key, c: Key)
    requires !Less(b, a) && Less(b, c)
    ensures Less(a, c)
  {
    LessIsTotal(a, b);
    if a != b {
      LessIsTransitive(a, b, c);
    }
  }

  // ---------------------------------------------------------------- the fetch

  /** The peer serves at least 1 and at most 200 rows a page, whatever it is asked for. */
  function Served(perPage: int): nat {
    if perPage < 1 then 1 else if perPage > 200 then 200 else perPage
  }

  function PageSize(setting: Option<int>): int {
    if setting.Some? && setting.value != 0 then setting.value else 100
  }

  function Least(a: nat, b: nat): nat {
    if a < b then a else b
  }

  /** How many rows are in when the paging ends, from page `page` (0-based) on; `answers` says which requests succeed. */
  function Reach(total: nat, perPage: int, answers: nat -> bool, page: nat): (r: nat)
    ensures r <= total
    decreases if page * Served(perPage) < total then total - page * Served(perPage) else 0
  {
    var start := page * Served(perPage);
    assert (page + 1) * Served(perPage) == start + Served(perPage);
    if !answers(page) || start >= total then Least(start, total)
    else if (page + 1) * perPage >= total then Least(start + Served(perPage), total)
    else Reach(total, perPage, answers, page + 1)
  }

  /** The number of leading records after the watermark. */
  function Newer(p: Parsers, kind: Kind, all: seq<Record>, mark: Option<string>): (n: nat)
    ensures n <= |all| && forall i | 0 <= i < n :: After(p, kind, all[i].cursor, mark)
    ensures n < |all| ==> !After(p, kind, all[n].cursor, mark)
  {
    if all == [] || !After(p, kind, all[0].cursor, mark) then 0 else 1 + Newer(p, kind, all[1..], mark)
  }

  function Reversed(s: seq<Record>): seq<Record> {
    seq(|s|, i requires 0 <= i < |s| => s[|s| - 1 - i])
  }

  /** What a fetch of the remote list `all` returns. */
  function Fetched(p: Parsers, kind: Kind, all: seq<Record>, mark: Option<string>, perPage: int, answers: nat -> bool): seq<Record> {
    Reversed(all[..Least(Newer(p, kind, all, mark), Reach(|all|, perPage, answers, 0))])
  }

  lemma NewerIs(p: Parsers, kind: Kind, all: seq<Record>, mark: Option<string>, n: nat)
    requires n <= |all| && forall i | 0 <= i < n :: After(p, kind, all[i].cursor, mark)
    ensures n <= Newer(p, kind, all, mark)
    ensures n < |all| && !After(p, kind, all[n].cursor, mark) ==> n == Newer(p, kind, all, mark)
  {}

  /** Read one page: all of it, or up to the first record that is not after the watermark. */
  method ReadPage(p: Parsers, kind: Kind, tracked: bool, all: seq<Record>, mark: Option<string>, start: nat, end: nat)
    returns (stop: bool, rows: seq<Record>)
    requires start <= end <= |all|
    ensures start + |rows| <= end && rows == all[start..start + |rows|]
    ensures tracked ==> forall i | start <= i < start + |rows| :: After(p, kind, all[i].cursor, mark)
    ensures stop ==> tracked && start + |rows| < end && !After(p, kind, all[start + |rows|].cursor, mark)
    ensures !stop ==> start + |rows| == end
  {
    rows := [];
    for j := start to end
      invariant rows == all[start..j]
      invariant tracked ==> forall i | start <= i < j :: After(p, kind, all[i].cursor, mark)
    {
      if tracked && !After(p, kind, all[j].cursor, mark) {
        stop := true;
        return;
      }
      rows := rows + [all[j]];
    }
    stop := false;
  }

  /** The first `n` rows are in, all of them after the watermark when there is one to keep. */
  ghost predicate Taken(p: Parsers, kind: Kind, tracked: bool, all: seq<Record>, mark: Option<string>, collected: seq<Record>, n: nat) {
    n <= |all| && collected == all[..n] && (tracked ==> forall i | 0 <= i < n :: After(p, kind, all[i].cursor, mark))
  }

  /** Nothing more is to be read. */
  ghost predicate Done(p: Parsers, kind: Kind, tracked: bool, all: seq<Record>, mark: Option<string>, collected: seq<Record>, reach: nat)
    requires reach <= |all|
  {
    collected == all[..if tracked then Least(Newer(p, kind, all, mark), reach) else reach]
  }

  lemma TakenMore(p: Parsers, kind: Kind, tracked: bool, all: seq<Record>, mark: Option<string>, collected: seq<Record>, rows: seq<Record>, start: nat)
    requires Taken(p, kind, tracked, all, mark, collected, start) && start + |rows| <= |all| && rows == all[start..start + |rows|]
    requires tracked ==> forall i | start <= i < start + |rows| :: After(p, kind, all[i].cursor, mark)
    ensures Taken(p, kind, tracked, all, mark, collected + rows, start + |rows|)
  {}

  lemma ReachedEnd(p: Parsers, kind: Kind, tracked: bool, all: seq<Record>, mark: Option<string>, collected: seq<Record>, reach: nat)
    requires Taken(p, kind, tracked, all, mark, collected, reach)
    ensures Done(p, kind, tracked, all, mark, collected, reach)
  {
    if tracked { NewerIs(p, kind, all, mark, reach); }
  }

  lemma ReachedMark(p: Parsers, kind: Kind, all: seq<Record>, mark: Option<string>, collected: seq<Record>, n: nat, reach: nat)
    requires Taken(p, kind, true, all, mark, collected, n) && n < reach <= |all| && !After(p, kind, all[n].cursor, mark)
    ensures Done(p, kind, true, all, mark, collected, reach)
  {
    NewerIs(p, kind, all, mark, n);
  }

  /** Take one page in, and say whether to ask for another; `last` is the test on the peer's total. */
  method TakePage(p: Parsers, kind: Kind, tracked: bool, all: seq<Record>, mark: Option<string>, taken: seq<Record>, start: nat, end: nat, last: bool,
                  ghost reach: nat)
    returns (going: bool, collected: seq<Record>)
    requires Taken(p, kind, tracked, all, mark, taken, start) && start < end <= reach <= |all| && (last ==> reach == end)
    ensures going ==> !last && Taken(p, kind, tracked, all, mark, collected, end)
    ensures !going ==> Done(p, kind, tracked, all, mark, collected, reach)
  {
    var stop, rows := ReadPage(p, kind, tracked, all, mark, start, end);
    TakenMore(p, kind, tracked, all, mark, taken, rows, start);
    collected := taken + rows;
    if stop {
      ReachedMark(p, kind, all, mark, collected, start + |rows|, reach);
    } else if last {
      ReachedEnd(p, kind, tracked, all, mark, collected, reach);
    }
    going := !stop && !last;
  }

  /** `_peer_records`: page through the peer's list, stopping at the first record that is not after the watermark. */
  method PeerRecords(p: Parsers, kind: Kind, tracked: bool, all: seq<Record>, mark: Option<string>, setting: Option<int>, answers: nat -> bool)
    returns (collected: seq<Record>)
    ensures collected == if tracked then Fetched(p, kind, all, mark, PageSize(setting), answers)
                         else all[..Reach(|all|, PageSize(setting), answers, 0)]
  {
    var perPage := PageSize(setting);
    ghost var reach := Reach(|all|, perPage, answers, 0);
    var start, page, going := 0, 0, true;
    collected := [];
    while going && answers(page) && start < |all|
      invariant start == page * Served(perPage)
      invariant going ==> Taken(p, kind, tracked, all, mark, collected, Least(start, |all|)) && Reach(|all|, perPage, answers, page) == reach
      invariant !going ==> Done(p, kind, tracked, all, mark, collected, reach)
      decreases if start < |all| then |all| - start else 0
    {
      ReachStep(|all|, perPage, answers, page, start);
      var last := (page + 1) * perPage >= |all|;
      going, collected := TakePage(p, kind, tracked, all, mark, collected, start, Least(start + Served(perPage), |all|), last, reach);
      start, page := start + Served(perPage), page + 1;
    }
    if going {
      ReachedEnd(p, kind, tracked, all, mark, collected, reach);
    }
    if tracked {
      collected := Reversed(collected);
    }
  }

  lemma ReachStep(total: nat, perPage: int, answers: nat -> bool, page: nat, start: nat)
    requires start == page * Served(perPage) && answers(page) && start < total
    ensures start + Served(perPage) == (page + 1) * Served(perPage)
    ensures Reach(total, perPage, answers, page) ==
      if (page + 1) * perPage >= total then Least(start + Served(perPage), total) else Reach(total, perPage, answers, page + 1)
    ensures Reach(total, perPage, answers, page) >= Least(start + Served(perPage), total)
  {
    assert (page + 1) * Served(perPage) == start + Served(perPage);
    ReachAhead(total, perPage, answers, page);
  }

  /** A page that answers is read to its end unless the watermark stops it. */
  lemma ReachAhead(total: nat, perPage: int, answers: nat -> bool, page: nat)
    requires answers(page) && page * Served(perPage) < total
    ensures Reach(total, perPage, answers, page) >= Least(page * Served(perPage) + Served(perPage), total)
  {
    assert (page + 1) * Served(perPage) == page * Served(perPage) + Served(perPage);
    if (page + 1) * perPage < total {
      ReachStart(total, perPage, answers, page + 1);
    }
  }

  lemma {:induction false} ReachStart(total: nat, perPage: int, answers: nat -> bool, page: nat)
    ensures Reach(total, perPage, answers, page) >= Least(page * Served(perPage), total)
    decreases if page * Served(perPage) < total then total - page * Served(perPage) else 0
  {
    assert (page + 1) * Served(perPage) == page * Served(perPage) + Served(perPage);
    if answers(page) && page * Served(perPage) < total && (page + 1) * perPage < total {
      ReachStart(total, perPage, answers, page + 1);
    }
  }

  // ---------------------------------------------------------------- what the fetch is worth

  /** Newest first; an absent cursor sorts as the oldest. */
  ghost predicate NewestFirst(p: Parsers, kind: Kind, all: seq<Record>) {
    forall i, j | 0 <= i < j < |all| :: !Less(CursorKey(p, kind, all[i].cursor), CursorKey(p, kind, all[j].cursor))
  }

  /** The full scan: every record after the watermark. */
  function FullScan(p: Parsers, kind: Kind, all: seq<Record>, mark: Option<string>): seq<Record> {
    if all == [] then []
    else FullScan(p, kind, all[..|all| - 1], mark) + if After(p, kind, all[|all| - 1].cursor, mark) then [all[|all| - 1]] else []
  }

  lemma OlderIsNotAfter(p: Parsers, kind: Kind, a: Option<Raw>, b: Option<Raw>, mark: Option<string>)
    requires !Less(CursorKey(p, kind, a), CursorKey(p, kind, b)) && !After(p, kind, a, mark)
    ensures !After(p, kind, b, mark)
  {
    if After(p, kind, b, mark) {
      var m, ka, kb := MarkKey(p, kind, mark.value), CursorKey(p, kind, a), CursorKey(p, kind, b);
      LessIsTotal(kb, ka);
      if kb != ka {
        LessIsTransitive(m, kb, ka);
      }
    }
  }

  lemma {:induction false} ScanOfPrefix(p: Parsers, kind: Kind, all: seq<Record>, mark: Option<string>, n: nat)
    requires n <= |all| && forall i | 0 <= i < |all| :: After(p, kind, all[i].cursor, mark) <==> i < n
    ensures FullScan(p, kind, all, mark) == all[..n]
  {
    if all != [] {
      var front := all[..|all| - 1];
      ScanOfPrefix(p, kind, front, mark, Least(n, |front|));
      assert n == |all| ==> all[..n] == front + [all[|all| - 1]];
      assert n < |all| ==> all[..n] == front[..n];
    }
  }

  /** On a sorted list the records after the watermark are a prefix. */
  lemma ScanIsPrefix(p: Parsers, kind: Kind, all: seq<Record>, mark: Option<string>)
    requires NewestFirst(p, kind, all)
    ensures FullScan(p, kind, all, mark) == all[..Newer(p, kind, all, mark)]
  {
    var n := Newer(p, kind, all, mark);
    forall i | n < i < |all| ensures !After(p, kind, all[i].cursor, mark) {
      OlderIsNotAfter(p, kind, all[n].cursor, all[i].cursor, mark);
    }
    ScanOfPrefix(p, kind, all, mark, n);
  }

  /**
    On a list sorted newest first the paged fetch with its early stop returns exactly the
    records of a full scan, oldest first, if and only if the paging gets past all of them.
  */
  lemma FetchIsFullScanIff(p: Parsers, kind: Kind, all: seq<Record>, mark: Option<string>, perPage: int, answers: nat -> bool)
    requires NewestFirst(p, kind, all)
    ensures Fetched(p, kind, all, mark, perPage, answers) == Reversed(FullScan(p, kind, all, mark)) <==>
      Newer(p, kind, all, mark) <= Reach(|all|, perPage, answers, 0)
  {
    ScanIsPrefix(p, kind, all, mark);
  }

  /** With every request answered and a page size the peer honours, the paging reaches the end. */
  lemma {:induction false} SmallPagesReachAll(total: nat, perPage: int, answers: nat -> bool, page: nat)
    requires perPage <= 200 && perPage != 0 && forall k: nat :: answers(k)
    ensures Reach(total, perPage, answers, page) == total
    decreases if page * Served(perPage) < total then total - page * Served(perPage) else 0
  {
    assert (page + 1) * Served(perPage) == page * Served(perPage) + Served(perPage);
    if page * Served(perPage) < total {
      if perPage > 0 {
        assert (page + 1) * perPage == page * Served(perPage) + Served(perPage);
      } else {
        assert (page + 1) * perPage < 0;
      }
      if (page + 1) * perPage < total {
        SmallPagesReachAll(total, perPage, answers, page + 1);
      }
    }
  }

  /** Without a page size, or with zero, pages have 100 rows and the paging reaches the end; any other size is taken as it is. */
  lemma DefaultPagesReachAll(setting: Option<int>, total: nat, answers: nat -> bool)
    requires forall k: nat :: answers(k)
    ensures setting == None || setting == Some(0) ==> Reach(total, PageSize(setting), answers, 0) == total && PageSize(setting) == 100
    ensures setting.Some? && setting.value != 0 ==> PageSize(setting) == setting.value
  {
    SmallPagesReachAll(total, 100, answers, 0);
  }

  /**
    Above 200 the peer serves 200 a page while the loop counts `perPage`: it asks for
    ceil(total / perPage) pages and gets no further than 200 rows each.
  */
  lemma {:induction false} LargePagesReach(total: nat, perPage: int, answers: nat -> bool, pages: nat, page: nat)
    requires perPage > 200 && forall k: nat :: answers(k)
    requires (pages - 1) * perPage < total <= pages * perPage && page < pages
    ensures Reach(total, perPage, answers, page) == Least(pages * 200, total)
    decreases pages - page
  {
    assert (page + 1) * Served(perPage) == page * Served(perPage) + Served(perPage);
    if page + 1 < pages {
      MorePages(page + 1, pages - 1, perPage);
      if page * 200 < total {
        LargePagesReach(total, perPage, answers, pages, page + 1);
      } else {
        MorePages(page, pages, 200);
      }
    } else {
      assert page + 1 == pages;
    }
  }

  lemma MorePages(a: nat, b: nat, k: int)
    requires a <= b && k > 0
    ensures a * k <= b * k
  {
    assert b * k - a * k == (b - a) * k;
  }

  // ---------------------------------------------------------------- the run

  /** The watermark after importing `recs` in order; only imported records move it. */
  function Finish(p: Parsers, kind: Kind, recs: seq<Record>, mark: Option<string>): Option<string> {
    if recs == [] then mark
    else
      var before, r := Finish(p, kind, recs[..|recs| - 1], mark), recs[|recs| - 1];
      if r.outcome.Imported? then Advance(p, kind, before, r.cursor) else before
  }

  function Count(recs: seq<Record>): nat {
    if recs == [] then 0 else Count(recs[..|recs| - 1]) + if recs[|recs| - 1].outcome.Imported? then 1 else 0
  }

  class Source {
    var watermark: Option<string>

    /** `run_one`. */
    method Run(p: Parsers, kind: Kind, tracked: bool, all: seq<Record>, setting: Option<int>, answers: nat -> bool) returns (imported: nat)
      modifies this
      ensures tracked ==>
        var recs := Fetched(p, kind, all, old(watermark), PageSize(setting), answers);
        watermark == Finish(p, kind, recs, old(watermark)) && imported == Count(recs)
      ensures !tracked ==> watermark == old(watermark) && imported == Count(all[..Reach(|all|, PageSize(setting), answers, 0)])
    {
      var recs := PeerRecords(p, kind, tracked, all, watermark, setting, answers);
      var mark := watermark;
      imported := 0;
      for n := 0 to |recs|
        invariant imported == Count(recs[..n])
        invariant mark == if tracked then Finish(p, kind, recs[..n], watermark) else watermark
        invariant watermark == old(watermark)
      {
        assert recs[..n + 1][..n] == recs[..n];
        if recs[n].outcome.Imported? {
          imported := imported + 1;
          if tracked {
            mark := Advance(p, kind, mark, recs[n].cursor);
          }
        }
      }
      assert recs[..|recs|] == recs;
      watermark := mark;
    }
  }

  /** Writing the cursor down as text and reading it back gives the same key. */
  predicate KeySurvives(p: Parsers, kind: Kind, cursor: Option<Raw>) {
    cursor.Some? ==> cursor.value.shown != "" && MarkKey(p, kind, cursor.value.shown) == CursorKey(p, kind, cursor)
  }

  ghost predicate KeysSurvive(p: Parsers, kind: Kind, recs: seq<Record>) {
    forall r | r in recs && r.outcome.Imported? :: KeySurvives(p, kind, r.cursor)
  }

  /** `mark` is the greatest of the old watermark and the imported cursors. */
  ghost predicate IsMax(p: Parsers, kind: Kind, recs: seq<Record>, before: Option<string>, mark: Option<string>) {
    && (!Blank(before) ==> !Blank(mark) && !Less(MarkKey(p, kind, mark.value), MarkKey(p, kind, before.value)))
    && (forall r | r in recs && r.outcome.Imported? && r.cursor.Some? :: !After(p, kind, r.cursor, mark))
    && (mark == before || exists r | r in recs :: Raised(p, kind, r, before, mark))
  }

  ghost predicate Raised(p: Parsers, kind: Kind, r: Record, before: Option<string>, mark: Option<string>) {
    r.outcome.Imported? && r.cursor.Some? && mark == Some(r.cursor.value.shown) && After(p, kind, r.cursor, before)
  }

  /** The watermark never goes back, and ends at the maximum imported cursor. */
  lemma {:induction false} WatermarkIsMax(p: Parsers, kind: Kind, recs: seq<Record>, before: Option<string>)
    requires KeysSurvive(p, kind, recs)
    ensures IsMax(p, kind, recs, before, Finish(p, kind, recs, before))
  {
    if recs == [] {
      if !Blank(before) {
        LessIsTotal(MarkKey(p, kind, before.value), MarkKey(p, kind, before.value));
      }
    } else {
      var front, r := recs[..|recs| - 1], recs[|recs| - 1];
      assert recs == front + [r];
      WatermarkIsMax(p, kind, front, before);
      MaxStep(p, kind, front, r, before, Finish(p, kind, front, before));
    }
  }

  lemma MaxStep(p: Parsers, kind: Kind, front: seq<Record>, r: Record, before: Option<string>, mark: Option<string>)
    requires IsMax(p, kind, front, before, mark) && (r.outcome.Imported? ==> KeySurvives(p, kind, r.cursor))
    ensures IsMax(p, kind, front + [r], before, if r.outcome.Imported? then Advance(p, kind, mark, r.cursor) else mark)
  {
    var recs, next := front + [r], if r.outcome.Imported? then Advance(p, kind, mark, r.cursor) else mark;
    if next == mark {
      SameMark(p, kind, front, r, before, mark);
    } else {
      var k := CursorKey(p, kind, r.cursor);
      LessIsTotal(k, k);
      if !Blank(before) {
        NotLessThenLess(MarkKey(p, kind, before.value), MarkKey(p, kind, mark.value), k);
        LessIsTotal(MarkKey(p, kind, before.value), k);
      }
      forall e | e in recs && e.outcome.Imported? && e.cursor.Some? ensures !After(p, kind, e.cursor, next) {
        if e != r && After(p, kind, e.cursor, next) {
          assert !After(p, kind, e.cursor, mark);
          LessIsTransitive(MarkKey(p, kind, mark.value), k, CursorKey(p, kind, e.cursor));
        }
      }
      assert Raised(p, kind, r, before, next);
    }
  }

  lemma SameMark(p: Parsers, kind: Kind, front: seq<Record>, r: Record, before: Option<string>, mark: Option<string>)
    requires IsMax(p, kind, front, before, mark) && (r.outcome.Imported? ==> KeySurvives(p, kind, r.cursor))
    requires r.outcome.Imported? ==> Advance(p, kind, mark, r.cursor) == mark
    ensures IsMax(p, kind, front + [r], before, mark)
  {
    var recs := front + [r];
    if r.outcome.Imported? && r.cursor.Some? && After(p, kind, r.cursor, mark) {
      LessIsTotal(CursorKey(p, kind, r.cursor), CursorKey(p, kind, r.cursor));
    }
    if mark != before {
      var e :| e in front && Raised(p, kind, e, before, mark);
      assert e in recs;
    }
  }

  /**
    A record that was after the watermark is offered again by the next run exactly when no
    record with its cursor or a later one was imported, so a record that failed, was skipped
    or was never reached is lost as soon as a newer one goes in.
  */
  lemma OfferedAgainIff(p: Parsers, kind: Kind, recs: seq<Record>, before: Option<string>, r: Record)
    requires KeysSurvive(p, kind, recs) && r.cursor.Some? && After(p, kind, r.cursor, before)
    ensures After(p, kind, r.cursor, Finish(p, kind, recs, before)) <==>
      forall e | e in recs && e.outcome.Imported? && e.cursor.Some? :: Less(CursorKey(p, kind, e.cursor), CursorKey(p, kind, r.cursor))
  {
    var mark, k := Finish(p, kind, recs, before), CursorKey(p, kind, r.cursor);
    WatermarkIsMax(p, kind, recs, before);
    if After(p, kind, r.cursor, mark) {
      forall e | e in recs && e.outcome.Imported? && e.cursor.Some? ensures Less(CursorKey(p, kind, e.cursor), k) {
        assert !After(p, kind, e.cursor, mark);
        var m := MarkKey(p, kind, mark.value);
        NotLessThenLess(CursorKey(p, kind, e.cursor), m, k);
      }
    } else if mark != before {
      var e :| e in recs && Raised(p, kind, e, before, mark);
      assert !Less(CursorKey(p, kind, e.cursor), k);
    }
  }

  /** Once the newest record is imported, the next run over the same list fetches nothing. */
  lemma SecondRunFetchesNothing(p: Parsers, kind: Kind, all: seq<Record>, before: Option<string>, perPage: int, answers: nat -> bool)
    requires KeysSurvive(p, kind, all) && (all != [] ==> all[0].cursor.Some? && all[0].outcome.Imported?)
    ensures var recs := Fetched(p, kind, all, before, perPage, answers);
      Fetched(p, kind, all, Finish(p, kind, recs, before), perPage, answers) == []
  {
    var recs := Fetched(p, kind, all, before, perPage, answers);
    if recs != [] {
      assert recs[|recs| - 1] == all[0];
      assert forall r | r in recs :: r in all;
      WatermarkIsMax(p, kind, recs, before);
      assert !After(p, kind, all[0].cursor, Finish(p, kind, recs, before));
    }
  }

  /** Records the paging did not reach are neither fetched now nor offered again. */
  lemma UnreachedIsLost(p: Parsers, kind: Kind, all: seq<Record>, before: Option<string>, perPage: int, answers: nat -> bool, i: nat)
    requires NewestFirst(p, kind, all) && KeysSurvive(p, kind, all)
    requires 0 < Reach(|all|, perPage, answers, 0) <= i < Newer(p, kind, all, before)
    requires all[0].cursor.Some? && all[0].outcome.Imported?
    ensures After(p, kind, all[i].cursor, before)
    ensures !After(p, kind, all[i].cursor, Finish(p, kind, Fetched(p, kind, all, before, perPage, answers), before))
  {
    var recs := Fetched(p, kind, all, before, perPage, answers);
    assert recs[|recs| - 1] == all[0];
    assert forall r | r in recs :: r in all;
    WatermarkIsMax(p, kind, recs, before);
    OlderIsNotAfter(p, kind, all[0].cursor, all[i].cursor, Finish(p, kind, recs, before));
  }

  const NOTE := Record(Some(Raw("a", None)), Imported)

  function Notes(n: nat): seq<Record> {
    seq(n, i => NOTE)
  }

  /** A page size of 250 over a peer with 250 new rows: one page of 200 comes, and the other 50 never do. */
  lemma PageOf250Loses(p: Parsers, answers: nat -> bool, i: nat)
    requires answers(0) && 200 <= i < 250
    ensures var all := Notes(250); var recs := Fetched(p, Kind.Text, all, None, 250, answers);
      && |recs| == 200 && After(p, Kind.Text, all[i].cursor, None) && !After(p, Kind.Text, all[i].cursor, Finish(p, Kind.Text, recs, None))
  {
    var all := Notes(250);
    assert forall j | 0 <= j < 250 :: After(p, Kind.Text, all[j].cursor, None);
    NewerIs(p, Kind.Text, all, None, 250);
    LessIsTotal(CursorKey(p, Kind.Text, NOTE.cursor), CursorKey(p, Kind.Text, NOTE.cursor));
    assert Reach(250, 250, answers, 0) == 200;
    UnreachedIsLost(p, Kind.Text, all, None, 250, answers, i);
  }
}
