/**
 What the import gate lets through: the handle list of property D621, sorted in place
 newest first, and the date table of 0x9053 (`src/fuji/fuji.c`).
 */
module FujiEnumeration {
  import opened Bytes
  import opened ObjectStore
  import opened FujiGate

  /** The downloadable handles in list order. */
  function Downloadables(l: seq<Dirent>): (hs: seq<u32>)
    ensures |hs| <= |l|
  {
    if l == [] then []
    else Downloadables(l[..|l| - 1]) + if Downloadable(l[|l| - 1]) then [l[|l| - 1].id] else []
  }

  lemma DownloadablesSnoc(l: seq<Dirent>, i: nat)
    requires i < |l|
    ensures Downloadables(l[..i + 1]) == Downloadables(l[..i]) + if Downloadable(l[i]) then [l[i].id] else []
  {
    assert l[..i + 1][..i] == l[..i];
  }

  ghost predicate Descending(s: seq<u32>)
  {
    forall i, j :: 0 <= i < j < |s| ==> s[i] >= s[j]
  }

  ghost predicate StrictlyDescending(s: seq<u32>)
  {
    forall i, j :: 0 <= i < j < |s| ==> s[i] > s[j]
  }

  // ---- The exchange sort ---------------------------------------------------------------

  ghost predicate Permuted(a: seq<u32>, b: seq<u32>)
  {
    multiset(a) == multiset(b)
  }

  lemma SwapPermutes(s: seq<u32>, i: nat, j: nat)
    requires i < j < |s|
    ensures Permuted(s[i := s[j]][j := s[i]], s)
  {
  }

  /** The first `a` handles are in order, and no later one is larger. */
  ghost predicate Foremost(s: seq<u32>, a: nat)
  {
    forall i, j :: 0 <= i < a && i < j < |s| ==> s[i] >= s[j]
  }

  ghost predicate Largest(s: seq<u32>, a: nat, b: nat)
    requires a < b <= |s|
  {
    forall j :: a < j < b ==> s[a] >= s[j]
  }

  lemma SwapKeepsForemost(s: seq<u32>, a: nat, b: nat)
    requires Foremost(s, a) && a < b < |s| && Largest(s, a, b) && s[b] > s[a]
    ensures var r := s[a := s[b]][b := s[a]];
            Foremost(r, a) && Largest(r, a, b) && r[a] >= r[b] && Permuted(r, s)
  {
    SwapPermutes(s, a, b);
  }

  /** One pass: the largest of `list[a..]` comes to position `a`. */
  method Pass(list: array<u32>, a: nat)
    requires a < list.Length && Foremost(list[..], a)
    modifies list
    ensures Foremost(list[..], a + 1)
    ensures Permuted(list[..], old(list[..]))
  {
    hide *;
    ghost var first := list[..];
    PassBegins(first, a);
    var b := a + 1;
    while b < list.Length
      invariant a < b <= list.Length
      invariant Permuted(list[..], first) && Foremost(list[..], a) && Largest(list[..], a, b)
    {
      ghost var was := list[..];
      PassOn(was, first, a, b);
      if list[b] > list[a] {
        var tmp := list[a];
        list[a] := list[b];
        list[b] := tmp;
        assert list[..] == was[a := was[b]][b := was[a]];
      }
      b := b + 1;
    }
    PassEnds(list[..], a);
  }

  lemma PassBegins(s: seq<u32>, a: nat)
    requires a < |s|
    ensures Permuted(s, s) && Largest(s, a, a + 1)
  {
  }

  lemma PassOn(s: seq<u32>, first: seq<u32>, a: nat, b: nat)
    requires Permuted(s, first) && Foremost(s, a) && a < b < |s| && Largest(s, a, b)
    ensures var r := if s[b] > s[a] then s[a := s[b]][b := s[a]] else s;
            Permuted(r, first) && Foremost(r, a) && Largest(r, a, b + 1)
  {
    if s[b] > s[a] {
      SwapKeepsForemost(s, a, b);
    }
  }

  lemma PassEnds(s: seq<u32>, a: nat)
    requires Foremost(s, a) && a < |s| && Largest(s, a, |s|)
    ensures Foremost(s, a + 1)
  {
  }

  method SortDescending(list: array<u32>)
    modifies list
    ensures Descending(list[..]) && Permuted(list[..], old(list[..]))
  {
    var a := 0;
    while a < list.Length
      invariant a <= list.Length && Foremost(list[..], a)
      invariant Permuted(list[..], old(list[..]))
    {
      Pass(list, a);
      a := a + 1;
    }
  }

  method CountDownloadables(l: seq<Dirent>) returns (count: nat)
    ensures count == |Downloadables(l)|
  {
    count := 0;
    for i := 0 to |l|
      invariant count == |Downloadables(l[..i])|
    {
      DownloadablesSnoc(l, i);
      if Downloadable(l[i]) {
        count := count + 1;
      }
    }
    assert l[..|l|] == l;
  }

  /** fuji_collect_downloadable_handles: gathered in list order, then sorted in place. */
  method CollectHandles(l: seq<Dirent>) returns (list: array<u32>)
    ensures fresh(list)
    ensures Descending(list[..]) && Permuted(list[..], Downloadables(l))
  {
    list := GatherHandles(l);
    SortDescending(list);
  }

  method GatherHandles(l: seq<Dirent>) returns (list: array<u32>)
    ensures fresh(list) && list[..] == Downloadables(l)
  {
    hide Downloadables;
    var count := CountDownloadables(l);
    list := new u32[count](_ => 0);
    var n := 0;
    NothingDownloadable(l);
    for i := 0 to |l|
      invariant n == |Downloadables(l[..i])| && n <= list.Length
      invariant list[..n] == Downloadables(l[..i])
    {
      DownloadablesSnoc(l, i);
      DownloadablesGrow(l, i + 1);
      if Downloadable(l[i]) {
        list[n] := l[i].id;
        n := n + 1;
      }
    }
    assert l[..|l|] == l && list[..n] == list[..];
  }

  lemma NothingDownloadable(l: seq<Dirent>)
    ensures Downloadables(l[..0]) == []
  {
  }

  lemma {:induction false} DownloadablesGrow(l: seq<Dirent>, i: nat)
    requires i <= |l|
    ensures |Downloadables(l[..i])| <= |Downloadables(l)|
    decreases |l|
  {
    if i == |l| {
      assert l[..i] == l;
    } else {
      DownloadablesGrow(l[..|l| - 1], i);
      assert l[..|l| - 1][..i] == l[..i];
    }
  }

  lemma {:induction false} DownloadablesAre(l: seq<Dirent>, h: u32)
    requires Distinct(l)
    ensures multiset(Downloadables(l))[h] == if HasDownloadable(l, h) then 1 else 0
  {
    if l == [] {
    } else {
      var n := |l| - 1;
      DownloadablesAre(l[..n], h);
      assert l == l[..n] + [l[n]];
      HasDownloadableSnoc(l[..n], l[n], h);
      hide HasDownloadable, Distinct;
    }
  }

  lemma HasDownloadableSnoc(l: seq<Dirent>, d: Dirent, h: u32)
    ensures HasDownloadable(l + [d], h) <==> HasDownloadable(l, h) || (Downloadable(d) && d.id == h)
    ensures Distinct(l + [d]) && HasDownloadable(l, h) ==> d.id != h
  {
    var m := l + [d];
    if HasDownloadable(l, h) {
      var i :| 0 <= i < |l| && Downloadable(l[i]) && l[i].id == h;
      assert Downloadable(m[i]) && m[i].id == h && m[|l|] == d;
    }
    assert m[|l|] == d;
  }

  /**
   With distinct handles the list is strictly descending, has each downloadable object
   once and nothing else, as many of them as D620 reports, and starts with the object
   0x9054 selects.
   */
  lemma EnumerationIsExact(l: seq<Dirent>, list: seq<u32>)
    requires Distinct(l) && Descending(list) && Permuted(list, Downloadables(l))
    ensures StrictlyDescending(list)
    ensures |list| == |Downloadables(l)|
    ensures forall h :: h in list <==> exists i :: 0 <= i < |l| && l[i].id == h && h != 0 && !l[i].isDir
    ensures forall h :: h in list ==> h <= list[0]
    ensures list != [] <==> Newest(l) >= 0
    ensures list != [] ==> list[0] == l[Newest(l)].id
  {
    hide Distinct, Descending, StrictlyDescending, HasDownloadable, Newest;
    forall h: u32
      ensures HasDownloadable(l, h) <==> exists i :: 0 <= i < |l| && l[i].id == h && h != 0 && !l[i].isDir
    {
      FilesOnly(l, h);
    }
    HeadIsLargest(list);
    assert |multiset(list)| == |list| && |multiset(Downloadables(l))| == |Downloadables(l)|;
    forall h: u32
      ensures multiset(list)[h] == if HasDownloadable(l, h) then 1 else 0
    {
      DownloadablesAre(l, h);
    }
    assert forall h :: h in list <==> h in multiset(list);
    OnceEach(list);
    HeadIsNewest(l, list);
  }

  lemma HeadIsLargest(list: seq<u32>)
    requires Descending(list)
    ensures forall h :: h in list ==> h <= list[0]
  {
  }

  lemma HeadIsNewest(l: seq<Dirent>, list: seq<u32>)
    requires Descending(list) && forall h :: h in list <==> HasDownloadable(l, h)
    ensures list != [] <==> Newest(l) >= 0
    ensures list != [] ==> list[0] == l[Newest(l)].id
  {
    hide Newest;
    if list != [] {
      assert HasDownloadable(l, list[0]);
    }
    if Newest(l) >= 0 {
      assert HasDownloadable(l, l[Newest(l)].id);
    }
  }

  lemma OnceEach(list: seq<u32>)
    requires Descending(list) && forall h :: multiset(list)[h] <= 1
    ensures StrictlyDescending(list)
  {
    forall i, j | 0 <= i < j < |list|
      ensures list[i] > list[j]
    {
      if list[i] == list[j] {
        TwicePresent(list, i, j);
      }
    }
  }

  lemma TwicePresent<T>(list: seq<T>, i: nat, j: nat)
    requires i < j < |list| && list[i] == list[j]
    ensures multiset(list)[list[i]] >= 2
  {
    assert list == list[..j] + list[j..];
    assert list[i] in list[..j] && list[j] in list[j..];
    assert multiset(list) == multiset(list[..j]) + multiset(list[j..]);
  }

  // ---- The date table ------------------------------------------------------------------

  datatype DateCount = DateCount(date: nat, count: nat)

  /**
   The days the downloadable objects were last modified on, in list order. `day` stands for
   gmtime and the %Y%m%d format; it may fail, and then the object is passed over.
   */
  function Days(l: seq<Dirent>, day: u32 -> Option<nat>): (ds: seq<nat>)
  {
    if l == [] then []
    else
      var d := l[|l| - 1];
      Days(l[..|l| - 1], day) + if Downloadable(d) && day(d.mtime).Some? then [day(d.mtime).value] else []
  }

  /** The places of the files that were modified on day `d`. */
  ghost function FilesOf(l: seq<Dirent>, day: u32 -> Option<nat>, d: nat): set<int>
  {
    set i | 0 <= i < |l| && l[i].id != 0 && !l[i].isDir && day(l[i].mtime) == Some(d)
  }

  lemma FilesSnoc(l: seq<Dirent>, day: u32 -> Option<nat>, d: nat)
    requires l != []
    ensures var n, all, most := |l| - 1, FilesOf(l, day, d), FilesOf(l[..|l| - 1], day, d);
            && n !in most
            && all == if l[n].id != 0 && !l[n].isDir && day(l[n].mtime) == Some(d) then most + {n} else most
  {
    var n := |l| - 1;
    assert forall i :: 0 <= i < n ==> l[..n][i] == l[i];
  }

  lemma LastDay(l: seq<Dirent>, day: u32 -> Option<nat>, d: nat)
    requires l != []
    ensures var n := |l| - 1;
            multiset(Days(l, day))[d] ==
            multiset(Days(l[..n], day))[d]
            + if l[n].id != 0 && !l[n].isDir && day(l[n].mtime) == Some(d) then 1 else 0
  {
    var n := |l| - 1;
    var days := Days(l[..n], day);
    assert forall x: nat :: multiset(days + [x]) == multiset(days) + multiset{x};
    assert days + [] == days;
  }

  /** Each day occurs as often as files of the card were modified on it. */
  lemma {:induction false} DaysAreFiles(l: seq<Dirent>, day: u32 -> Option<nat>, d: nat)
    ensures multiset(Days(l, day))[d] == |FilesOf(l, day, d)|
    decreases |l|
  {
    if l == [] {
      assert FilesOf(l, day, d) == {};
    } else {
      DaysAreFiles(l[..|l| - 1], day, d);
      LastDay(l, day, d);
      FilesSnoc(l, day, d);
      hide Days, FilesOf;
    }
  }

  /** So a row of the date table counts the files of its day. */
  lemma RowsCountFiles(table: seq<DateCount>, l: seq<Dirent>, day: u32 -> Option<nat>, max: nat, i: nat)
    requires Tallies(table, Days(l, day), max) && i < |table|
    ensures table[i].count == |FilesOf(l, day, table[i].date)| > 0
  {
    DaysAreFiles(l, day, table[i].date);
    hide FilesOf, Days;
  }

  ghost predicate Listed(table: seq<DateCount>, date: nat)
  {
    exists i :: 0 <= i < |table| && table[i].date == date
  }

  ghost predicate NoDuplicates(table: seq<DateCount>)
  {
    forall i, j :: 0 <= i < j < |table| ==> table[i].date != table[j].date
  }

  /** Each listed day has its full count, and a day is left out only of a full table. */
  ghost predicate Tallies(table: seq<DateCount>, days: seq<nat>, max: nat)
  {
    && |table| <= max && NoDuplicates(table)
    && (forall i :: 0 <= i < |table| ==> table[i].count == multiset(days)[table[i].date] > 0)
    && (|table| < max ==> forall d :: d in days ==> Listed(table, d))
  }

  ghost predicate DatesDescending(table: seq<DateCount>)
  {
    forall i, j :: 0 <= i < j < |table| ==> table[i].date > table[j].date
  }

  /** A day that is in the table already: its count goes up. */
  lemma TallyAgain(table: seq<DateCount>, days: seq<nat>, max: nat, i: nat)
    requires Tallies(table, days, max) && i < |table|
    ensures Tallies(table[i := DateCount(table[i].date, table[i].count + 1)], days + [table[i].date], max)
  {
    var d := table[i].date;
    var t := table[i := DateCount(d, table[i].count + 1)];
    assert multiset(days + [d]) == multiset(days) + multiset{d};
    forall x | x in days + [d] && |table| < max
      ensures Listed(t, x)
    {
      if x in days {
        assert Listed(table, x);
        var k :| 0 <= k < |table| && table[k].date == x;
        assert t[k].date == x;
      }
    }
  }

  /** A new day while there is room: it starts a row. */
  lemma TallyNew(table: seq<DateCount>, days: seq<nat>, max: nat, d: nat)
    requires Tallies(table, days, max) && |table| < max && !Listed(table, d)
    ensures Tallies(table + [DateCount(d, 1)], days + [d], max)
  {
    var t := table + [DateCount(d, 1)];
    assert multiset(days + [d]) == multiset(days) + multiset{d};
    assert d !in days;
    forall x | x in days + [d]
      ensures Listed(t, x)
    {
      if x in days {
        assert Listed(table, x);
        var k :| 0 <= k < |table| && table[k].date == x;
        assert t[k].date == x;
      } else {
        assert t[|table|].date == x;
      }
    }
  }

  /** A new day without room: it is dropped. */
  lemma TallyDropped(table: seq<DateCount>, days: seq<nat>, max: nat, d: nat)
    requires Tallies(table, days, max) && |table| == max && !Listed(table, d)
    ensures Tallies(table, days + [d], max)
  {
    assert multiset(days + [d]) == multiset(days) + multiset{d};
  }

  method FindDate(dates: array<DateCount>, n: nat, date: nat) returns (found: int)
    requires n <= dates.Length
    ensures -1 <= found < n
    ensures found >= 0 ==> dates[found].date == date
    ensures found < 0 ==> !Listed(dates[..n], date)
  {
    found := -1;
    var i := 0;
    while i < n
      invariant 0 <= i <= n && forall k :: 0 <= k < i ==> dates[k].date != date
    {
      if dates[i].date == date {
        return i;
      }
      i := i + 1;
    }
  }

  /** Counts one object's day. */
  method Tally(dates: array<DateCount>, n: nat, date: nat, ghost days: seq<nat>) returns (m: nat)
    requires n <= dates.Length && Tallies(dates[..n], days, dates.Length)
    modifies dates
    ensures m <= dates.Length && Tallies(dates[..m], days + [date], dates.Length)
  {
    m := n;
    ghost var was := dates[..n];
    var found := FindDate(dates, n, date);
    if found >= 0 {
      TallyAgain(was, days, dates.Length, found);
      dates[found] := dates[found].(count := dates[found].count + 1);
      assert dates[..n] == was[found := DateCount(was[found].date, was[found].count + 1)];
    } else if n < dates.Length {
      TallyNew(was, days, dates.Length, date);
      dates[n] := DateCount(date, 1);
      m := n + 1;
      assert dates[..m] == was + [DateCount(date, 1)];
    } else {
      TallyDropped(was, days, dates.Length, date);
    }
  }

  ghost predicate SameRows(a: seq<DateCount>, b: seq<DateCount>)
  {
    multiset(a) == multiset(b)
  }

  lemma SwapSameRows(s: seq<DateCount>, i: nat, j: nat)
    requires i < j < |s|
    ensures SameRows(s[i := s[j]][j := s[i]], s)
  {
  }

  /** The first `a` rows are in order, and no later row has a later date. */
  ghost predicate Leading(rows: seq<DateCount>, a: nat)
  {
    forall i, j :: 0 <= i < a && i < j < |rows| ==> rows[i].date >= rows[j].date
  }

  ghost predicate Latest(rows: seq<DateCount>, a: nat, b: nat)
    requires a < b <= |rows|
  {
    forall j :: a < j < b ==> rows[a].date >= rows[j].date
  }

  lemma SwapKeepsLeading(rows: seq<DateCount>, a: nat, b: nat)
    requires Leading(rows, a) && a < b < |rows| && Latest(rows, a, b) && rows[b].date > rows[a].date
    ensures var r := rows[a := rows[b]][b := rows[a]];
            Leading(r, a) && Latest(r, a, b) && r[a].date >= r[b].date && SameRows(r, rows)
  {
    SwapSameRows(rows, a, b);
  }

  /** One pass of the sort: the latest day of `dates[a..n]` comes to position `a`. */
  method DatePass(dates: array<DateCount>, n: nat, a: nat)
    requires a < n <= dates.Length && Leading(dates[..n], a)
    modifies dates
    ensures Leading(dates[..n], a + 1)
    ensures SameRows(dates[..n], old(dates[..n]))
  {
    hide *;
    ghost var first := dates[..n];
    DatePassBegins(first, a);
    var b := a + 1;
    while b < n
      invariant a < b <= n
      invariant SameRows(dates[..n], first) && Leading(dates[..n], a) && Latest(dates[..n], a, b)
    {
      ghost var was := dates[..n];
      DatePassOn(was, first, a, b);
      if dates[b].date > dates[a].date {
        var tmp := dates[a];
        dates[a] := dates[b];
        dates[b] := tmp;
        assert dates[..n] == was[a := was[b]][b := was[a]];
      }
      b := b + 1;
    }
    DatePassEnds(dates[..n], a);
  }

  lemma DatePassBegins(rows: seq<DateCount>, a: nat)
    requires a < |rows|
    ensures SameRows(rows, rows) && Latest(rows, a, a + 1)
  {
  }

  lemma DatePassOn(rows: seq<DateCount>, first: seq<DateCount>, a: nat, b: nat)
    requires SameRows(rows, first) && Leading(rows, a) && a < b < |rows| && Latest(rows, a, b)
    ensures var r := if rows[b].date > rows[a].date then rows[a := rows[b]][b := rows[a]] else rows;
            SameRows(r, first) && Leading(r, a) && Latest(r, a, b + 1)
  {
    if rows[b].date > rows[a].date {
      SwapKeepsLeading(rows, a, b);
    }
  }

  lemma DatePassEnds(rows: seq<DateCount>, a: nat)
    requires Leading(rows, a) && a < |rows| && Latest(rows, a, |rows|)
    ensures Leading(rows, a + 1)
  {
  }

  /** fuji_collect_import_dates: one row a day, latest day first. */
  method CollectDates(l: seq<Dirent>, day: u32 -> Option<nat>, dates: array<DateCount>) returns (n: nat)
    modifies dates
    ensures n <= dates.Length && Tallies(dates[..n], Days(l, day), dates.Length) && DatesDescending(dates[..n])
  {
    n := TallyDays(l, day, dates);
    ghost var tallied := dates[..n];
    SortRows(dates, n);
    RowsTally(dates[..n], tallied, Days(l, day), dates.Length);
    DatesAreDescending(dates[..n]);
  }

  method TallyDays(l: seq<Dirent>, day: u32 -> Option<nat>, dates: array<DateCount>) returns (n: nat)
    modifies dates
    ensures n <= dates.Length && Tallies(dates[..n], Days(l, day), dates.Length)
  {
    hide Tallies, Days;
    n := 0;
    NoDays(l, day, dates[..n], dates.Length);
    for i := 0 to |l|
      invariant n <= dates.Length && Tallies(dates[..n], Days(l[..i], day), dates.Length)
    {
      DaysSnoc(l, day, i);
      if Downloadable(l[i]) && day(l[i].mtime).Some? {
        n := Tally(dates, n, day(l[i].mtime).value, Days(l[..i], day));
      }
    }
    assert l[..|l|] == l;
  }

  lemma NoDays(l: seq<Dirent>, day: u32 -> Option<nat>, table: seq<DateCount>, max: nat)
    requires table == []
    ensures Tallies(table, Days(l[..0], day), max)
  {
  }

  lemma DaysSnoc(l: seq<Dirent>, day: u32 -> Option<nat>, i: nat)
    requires i < |l|
    ensures Days(l[..i + 1], day) ==
            if Downloadable(l[i]) && day(l[i].mtime).Some? then Days(l[..i], day) + [day(l[i].mtime).value] else Days(l[..i], day)
  {
    assert l[..i + 1][..i] == l[..i];
  }

  method SortRows(dates: array<DateCount>, n: nat)
    requires n <= dates.Length
    modifies dates
    ensures SameRows(dates[..n], old(dates[..n])) && Leading(dates[..n], n)
  {
    hide Leading;
    assert Leading(dates[..n], 0) by {
      NoneLeads(dates[..n]);
    }
    var a := 0;
    while a < n
      invariant a <= n && SameRows(dates[..n], old(dates[..n])) && Leading(dates[..n], a)
    {
      DatePass(dates, n, a);
      a := a + 1;
    }
  }

  lemma NoneLeads(rows: seq<DateCount>)
    ensures Leading(rows, 0)
  {
  }

  /** Days that are in order and different are strictly in order. */
  lemma DatesAreDescending(rows: seq<DateCount>)
    requires Leading(rows, |rows|) && NoDuplicates(rows)
    ensures DatesDescending(rows)
  {
  }

  /** Reordering the rows of a table changes nothing it says. */
  lemma RowsTally(a: seq<DateCount>, b: seq<DateCount>, days: seq<nat>, max: nat)
    requires SameRows(a, b) && Tallies(b, days, max)
    ensures Tallies(a, days, max)
  {
    assert |multiset(a)| == |a| && |multiset(b)| == |b|;
    assert forall r :: r in a <==> r in multiset(a);
    assert forall r :: r in b <==> r in multiset(b);
    forall i | 0 <= i < |a|
      ensures a[i].count == multiset(days)[a[i].date] > 0
    {
      assert a[i] in b;
    }
    NoDuplicatesCount(b);
    RowsDistinct(a, b);
    forall d | d in days && |a| < max
      ensures Listed(a, d)
    {
      assert Listed(b, d);
      var k :| 0 <= k < |b| && b[k].date == d;
      assert b[k] in a;
    }
  }

  lemma NoDuplicatesCount(b: seq<DateCount>)
    requires NoDuplicates(b)
    ensures forall r :: multiset(b)[r] <= 1
  {
    forall r | r in b
      ensures multiset(b)[r] <= 1
    {
      var k :| 0 <= k < |b| && b[k] == r;
      assert b == b[..k] + [r] + b[k + 1..];
      assert r !in b[..k] && r !in b[k + 1..];
    }
  }

  lemma RowsDistinct(a: seq<DateCount>, b: seq<DateCount>)
    requires SameRows(a, b) && NoDuplicates(b) && forall r :: multiset(b)[r] <= 1
    ensures NoDuplicates(a)
  {
    forall i, j | 0 <= i < j < |a|
      ensures a[i].date != a[j].date
    {
      assert a[i] in multiset(b) && a[j] in multiset(b);
      if a[i] == a[j] {
        TwicePresent(a, i, j);
      }
    }
  }

  function Total(table: seq<DateCount>): nat
  {
    if table == [] then 0 else Total(table[..|table| - 1]) + table[|table| - 1].count
  }

  ghost function Rows(table: seq<DateCount>): (s: set<nat>)
    ensures forall d :: d in s <==> Listed(table, d)
  {
    set i | 0 <= i < |table| :: table[i].date
  }

  lemma {:induction false} RowsCount(table: seq<DateCount>)
    requires NoDuplicates(table)
    ensures |Rows(table)| == |table|
  {
    if table == [] {
    } else {
      var n := |table| - 1;
      RowsCount(table[..n]);
      assert Rows(table) == Rows(table[..n]) + {table[n].date};
    }
  }

  ghost predicate AllListed(table: seq<DateCount>, days: multiset<nat>)
  {
    forall d :: d in days ==> Listed(table, d)
  }

  lemma ListedSnoc(table: seq<DateCount>, r: DateCount, d: nat)
    ensures Listed(table + [r], d) <==> Listed(table, d) || r.date == d
  {
    var t := table + [r];
    assert t[|table|] == r;
    if Listed(table, d) {
      var k :| 0 <= k < |table| && table[k].date == d;
      assert t[k].date == d;
    }
  }

  lemma AllListedSnoc(table: seq<DateCount>, r: DateCount, days: multiset<nat>)
    requires !Listed(table, r.date)
    ensures AllListed(table + [r], days) <==> AllListed(table, days[r.date := 0])
  {
    forall d: nat
      ensures Listed(table + [r], d) <==> Listed(table, d) || r.date == d
    {
      ListedSnoc(table, r, d);
    }
  }

  lemma {:induction false} TotalIs(table: seq<DateCount>, days: multiset<nat>)
    requires NoDuplicates(table)
    requires forall i :: 0 <= i < |table| ==> table[i].count == days[table[i].date] > 0
    ensures Total(table) <= |days|
    ensures Total(table) == |days| <==> AllListed(table, days)
  {
    if table == [] {
      if days != multiset{} {
        var d :| d in days;
        assert !Listed(table, d);
      }
    } else {
      var n := |table| - 1;
      var r := table[n];
      var rest := days[r.date := 0];
      assert |rest| == |days| - r.count;
      TotalIs(table[..n], rest);
      assert table == table[..n] + [r];
      AllListedSnoc(table[..n], r, days);
    }
  }

  ghost function Distinctly(days: seq<nat>): set<nat>
  {
    set d | d in days
  }

  lemma RowsAreDays(table: seq<DateCount>, days: seq<nat>, max: nat)
    requires Tallies(table, days, max)
    ensures Rows(table) <= Distinctly(days)
    ensures Rows(table) == Distinctly(days) <==> AllListed(table, multiset(days))
    ensures |table| < max ==> Rows(table) == Distinctly(days)
  {
    forall d | d in Rows(table)
      ensures d in days
    {
      var k :| 0 <= k < |table| && table[k].date == d;
      assert d in multiset(days);
    }
    assert forall d :: d in multiset(days) <==> d in Distinctly(days);
  }

  /**
   The table is duplicate-free and descending, and its counts add up to the number of dated
   downloadable objects exactly when there are no more distinct days than rows.
   */
  lemma DatesAreExact(table: seq<DateCount>, days: seq<nat>, max: nat)
    requires Tallies(table, days, max)
    ensures Total(table) <= |days|
    ensures Total(table) == |days| <==> |Distinctly(days)| <= max
    ensures |table| == Min(|Distinctly(days)|, max)
  {
    assert |multiset(days)| == |days|;
    TotalIs(table, multiset(days));
    RowsCount(table);
    RowsAreDays(table, days, max);
    var rows, all := Rows(table), Distinctly(days);
    assert |rows| == |table| <= max;
    hide *;
    if rows != all {
      var d :| d in all && d !in rows;
      Subset(rows + {d}, all);
    }
  }

  lemma {:induction false} Subset(a: set<nat>, b: set<nat>)
    requires a <= b
    ensures |a| <= |b|
    decreases a
  {
    if a == {} {
    } else {
      var x :| x in a;
      Subset(a - {x}, b - {x});
    }
  }
}
