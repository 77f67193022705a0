/** The completion ledger (`src/database.py`): the SQLite table
    `processados`, whose `link` column is UNIQUE, reduced to its rows in
    insertion order. Every query takes a `reachable` flag standing for
    whether the database could be opened; a storage error degrades to
    `false`, an empty set or zero statistics and leaves the ledger as it was.
    The day a row was recorded (`DATE(processed_at)`) is an integer given by
    the caller, as is the current day. */
module Database {
  import opened Basics

  datatype Entry = Entry(link: string, processedOn: int)

  datatype Ledger = Ledger(entries: seq<Entry>)

  function EntryLink(e: Entry): string {
    e.link
  }

  /** The UNIQUE constraint on `link`. */
  ghost predicate Valid(db: Ledger) {
    DistinctKeys(db.entries, EntryLink)
  }

  /** The links recorded in the ledger. */
  function Links(db: Ledger): (ls: set<string>)
    ensures forall i :: 0 <= i < |db.entries| ==> db.entries[i].link in ls
    ensures forall l :: l in ls ==> exists i :: 0 <= i < |db.entries| && db.entries[i].link == l
  {
    set e | e in db.entries :: e.link
  }

  /** The result of `mark_as_processed` and the ledger after it. */
  datatype Marked = Marked(inserted: bool, db: Ledger)

  /** `DatabaseManager.mark_as_processed`: `INSERT OR IGNORE`, reporting
      whether a row was inserted. */
  function MarkAsProcessed(db: Ledger, link: string, today: int, reachable: bool): (r: Marked)
    ensures r.inserted <==> reachable && link !in Links(db)
    ensures r.inserted ==> r.db.entries == db.entries + [Entry(link, today)]
    ensures !r.inserted ==> r.db == db
  {
    if reachable && link !in Links(db) then Marked(true, Ledger(db.entries + [Entry(link, today)]))
    else Marked(false, db)
  }

  /** `DatabaseManager.is_processed`. */
  function IsProcessed(db: Ledger, link: string, reachable: bool): (r: bool)
    ensures r <==> reachable && exists i :: 0 <= i < |db.entries| && db.entries[i].link == link
  {
    reachable && link in Links(db)
  }

  /** `DatabaseManager.get_all_processed_links`. */
  function GetAllProcessedLinks(db: Ledger, reachable: bool): (r: set<string>)
    ensures reachable ==> r == Links(db)
    ensures !reachable ==> r == {}
  {
    if reachable then Links(db) else {}
  }

  /** `DatabaseManager.filter_unprocessed`: the links not yet recorded, in
      input order and with input duplicates kept. */
  function FilterUnprocessed(db: Ledger, links: seq<string>, reachable: bool): (r: seq<string>)
    ensures IsSubsequence(r, links)
    ensures forall l :: l in r <==> l in links && !IsProcessed(db, l, reachable)
    ensures forall l :: !IsProcessed(db, l, reachable) ==> multiset(r)[l] == multiset(links)[l]
  {
    var processed := GetAllProcessedLinks(db, reachable);
    Filter(links, (l: string) => l !in processed)
  }

  /** The dictionary `get_statistics` returns. */
  datatype Statistics = Statistics(totalProcessed: nat, processedToday: nat)

  /** `WHERE DATE(processed_at) = day`. */
  function RecordedOn(day: int): Entry -> bool {
    (e: Entry) => e.processedOn == day
  }

  /** The day each row was recorded, in insertion order. */
  function DaysOf(entries: seq<Entry>): (ds: seq<int>)
    ensures |ds| == |entries| && forall i :: 0 <= i < |entries| ==> ds[i] == entries[i].processedOn
    decreases |entries|
  {
    if entries == [] then [] else [entries[0].processedOn] + DaysOf(entries[1..])
  }

  /** The rows recorded on a day are as many as the occurrences of that day
      among the recording days. */
  lemma {:induction false} CountOfDay(entries: seq<Entry>, day: int)
    ensures Count(entries, RecordedOn(day)) == multiset(DaysOf(entries))[day]
    decreases |entries|
  {
    if entries != [] {
      CountOfDay(entries[1..], day);
      assert DaysOf(entries) == [entries[0].processedOn] + DaysOf(entries[1..]);
    }
  }

  /** `DatabaseManager.get_statistics`: `COUNT(*)` over the table and over
      the rows recorded on `today`. */
  function GetStatistics(db: Ledger, today: int, reachable: bool): (r: Statistics)
    ensures r.processedToday <= r.totalProcessed
    ensures reachable ==> r.totalProcessed == |db.entries|
    ensures reachable ==> r.processedToday == |Filter(db.entries, RecordedOn(today))|
    ensures reachable ==> r.processedToday == multiset(DaysOf(db.entries))[today]
    ensures !reachable ==> r == Statistics(0, 0)
  {
    CountIsFilterLength(db.entries, RecordedOn(today));
    CountOfDay(db.entries, today);
    if reachable then Statistics(|db.entries|, Count(db.entries, RecordedOn(today)))
    else Statistics(0, 0)
  }

  // ---------------------------------------------------------------------------
  // Properties of the ledger
  // ---------------------------------------------------------------------------

  /** Marking keeps the UNIQUE constraint. */
  lemma MarkKeepsValid(db: Ledger, link: string, today: int, reachable: bool)
    requires Valid(db)
    ensures Valid(MarkAsProcessed(db, link, today, reachable).db)
  {
    var r := MarkAsProcessed(db, link, today, reachable);
    if r.inserted {
      forall i, j | 0 <= i < j < |r.db.entries|
        ensures EntryLink(r.db.entries[i]) != EntryLink(r.db.entries[j])
      {
        if j == |db.entries| {
          assert r.db.entries[i] == db.entries[i];
        }
      }
    }
  }

  /** Marking adds exactly the marked link when the database is reachable,
      and nothing otherwise: the processed set only grows. */
  lemma MarkGrowsLinks(db: Ledger, link: string, today: int, reachable: bool)
    ensures Links(MarkAsProcessed(db, link, today, reachable).db) ==
            Links(db) + (if reachable then {link} else {})
  {
    var r := MarkAsProcessed(db, link, today, reachable);
    if r.inserted {
      assert r.db.entries[|db.entries|].link == link;
      forall l | l in Links(r.db) ensures l in Links(db) + {link} {
        var i :| 0 <= i < |r.db.entries| && r.db.entries[i].link == l;
        if i < |db.entries| {
          assert db.entries[i] == r.db.entries[i];
        }
      }
      forall l | l in Links(db) ensures l in Links(r.db) {
        var i :| 0 <= i < |db.entries| && db.entries[i].link == l;
        assert r.db.entries[i] == db.entries[i];
      }
    }
  }

  /** Whatever `mark_as_processed` returned, the link is processed afterwards
      (the database being reachable). */
  lemma MarkThenIsProcessed(db: Ledger, link: string, today: int)
    ensures IsProcessed(MarkAsProcessed(db, link, today, true).db, link, true)
  {
    MarkGrowsLinks(db, link, today, true);
  }

  /** A second `mark_as_processed` of the same link reports no insertion and
      changes nothing. */
  lemma MarkTwice(db: Ledger, link: string, today: int, later: int)
    ensures var once := MarkAsProcessed(db, link, today, true).db;
            var twice := MarkAsProcessed(once, link, later, true);
            !twice.inserted && twice.db == once
  {
    MarkGrowsLinks(db, link, today, true);
  }

  /** Appending a row adds its link. */
  lemma LinksSnoc(init: seq<Entry>, last: Entry)
    ensures Links(Ledger(init + [last])) == Links(Ledger(init)) + {last.link}
  {
    var entries := init + [last];
    assert entries[|init|] == last;
    forall l | l in Links(Ledger(entries)) ensures l in Links(Ledger(init)) + {last.link} {
      var i :| 0 <= i < |entries| && entries[i].link == l;
      if i < |init| {
        assert init[i] == entries[i];
      }
    }
    forall l | l in Links(Ledger(init)) ensures l in Links(Ledger(entries)) {
      var i :| 0 <= i < |init| && init[i].link == l;
      assert entries[i] == init[i];
    }
  }

  /** With distinct links, the number of rows is the number of links. */
  lemma {:induction false} DistinctEntriesCount(entries: seq<Entry>)
    requires DistinctKeys(entries, EntryLink)
    ensures |Links(Ledger(entries))| == |entries|
  {
    if entries != [] {
      var n := |entries| - 1;
      var init := entries[..n];
      var last := entries[n];
      assert DistinctKeys(init, EntryLink) by {
        assert forall i :: 0 <= i < |init| ==> init[i] == entries[i];
      }
      DistinctEntriesCount(init);
      assert last.link !in Links(Ledger(init)) by {
        forall i | 0 <= i < |init| ensures init[i].link != last.link {
          assert init[i] == entries[i];
          assert EntryLink(entries[i]) != EntryLink(entries[n]);
        }
      }
      assert entries == init + [last];
      LinksSnoc(init, last);
    }
  }

  /** `total_processed` is the number of distinct processed links. */
  lemma TotalIsNumberOfLinks(db: Ledger, today: int)
    requires Valid(db)
    ensures GetStatistics(db, today, true).totalProcessed == |Links(db)|
  {
    DistinctEntriesCount(db.entries);
  }

  /** Once a link is marked, `filter_unprocessed` drops it. */
  lemma MarkedLinkIsFiltered(db: Ledger, link: string, today: int, links: seq<string>)
    ensures link !in FilterUnprocessed(MarkAsProcessed(db, link, today, true).db, links, true)
  {
    MarkThenIsProcessed(db, link, today);
  }
}
