/** The ranking driver of matching.cpp: validation of the matching method, the
    loop that compares the hummed query with every sample of every song of the
    catalog, the sort of the rank list by `cmp`, and the top-5 report that keeps
    each song once. Command-line parsing, the XML database and the XML output
    are not modelled; the catalog arrives already parsed. */
module Ranking {
  import opened Encoders
  import opened Sorting
  import opened Selection

  datatype Result<T> = Ok(value: T) | Err(msg: string)

  /** The report keeps at most this many songs (`max = 5`). */
  const MaxResults: nat := 5
  /** Size of the `used` array: song ids run from 1 to 50. */
  const IdCapacity: nat := 50

  // ---------------------------------------------------------------------------
  // Method validation

  /** The name under which each method is selected. */
  function MethodName(m: MatchingMethod): (name: string)
    ensures name == "default" || name == "uds" || name == "dtw"
  {
    match m
    case Default => "default"
    case Uds => "uds"
    case Dtw => "dtw"
  }

  /** The check at the end of parse_args: any other name is an error, reported
      before anything is read or compared. */
  function ParseMethod(name: string): (r: Result<MatchingMethod>)
    ensures r.Ok? <==> name == "default" || name == "uds" || name == "dtw"
  {
    if name == "default" then Ok(Default)
    else if name == "uds" then Ok(Uds)
    else if name == "dtw" then Ok(Dtw)
    else Err("unknown matching method " + name)
  }

  /** Parsing and naming are inverse to each other. */
  lemma ParseMethodRoundTrip(m: MatchingMethod, name: string)
    ensures ParseMethod(MethodName(m)) == Ok(m)
    ensures ParseMethod(name).Ok? ==> MethodName(ParseMethod(name).value) == name
  {
  }

  // ---------------------------------------------------------------------------
  // Ordering the rank list

  /** The sort key of a rank entry: its similarity score. */
  function Score(e: Entry): real { e.score }

  /** `cmp`: entry `a` goes before `b` when its score is smaller; entries of
      equal score are unordered. */
  function Cmp(a: Entry, b: Entry): (before: bool)
    ensures a.score == b.score ==> !before
    ensures before ==> !(b.score < a.score)
  {
    a.score < b.score
  }

  /** `cmp` is a strict weak order, as `std::sort` demands: irreflexive,
      transitive, and with incomparability (equal scores) transitive too. */
  lemma CmpStrictWeakOrder(a: Entry, b: Entry, c: Entry)
    ensures !Cmp(a, a)
    ensures Cmp(a, b) && Cmp(b, c) ==> Cmp(a, c)
    ensures !Cmp(a, b) && !Cmp(b, a) && !Cmp(b, c) && !Cmp(c, b) ==> !Cmp(a, c) && !Cmp(c, a)
    ensures Cmp(a, b) || Cmp(b, a) || a.score == b.score
  {
  }

  /** `sort(rank.begin(), rank.end(), cmp)`. */
  function SortRank(rank: seq<Entry>): (sorted: seq<Entry>)
    ensures multiset(sorted) == multiset(rank)
    ensures forall i, j :: 0 <= i < j < |sorted| ==> !Cmp(sorted[j], sorted[i])
  {
    SortBy(rank, Score)
  }

  // ---------------------------------------------------------------------------
  // The top-5 report

  /** Catalog data reported for a song. */
  datatype Song = Song(author: string, title: string, genre: string, url: string)

  /** One `<song>` element of the output: the song's data and its similarity. */
  datatype Reported = Reported(song: Song, similarity: real)

  /** The entries the report loop keeps from `rank`, given the ids already
      `used` and the number `k` of songs still to report: it walks the list and
      keeps every entry whose id has not been used yet, until `k` are kept. */
  function Top(rank: seq<Entry>, k: nat, used: set<int>): (top: seq<Entry>)
    ensures |top| <= k && |top| <= |rank|
  {
    if k == 0 || |rank| == 0 then []
    else if rank[0].id in used then Top(rank[1..], k, used)
    else [rank[0]] + Top(rank[1..], k - 1, used + {rank[0].id})
  }

  /** The ids of `top` index the catalog `songs` at position `id - 1`. */
  predicate InCatalog(top: seq<Entry>, songs: seq<Song>) {
    forall e :: e in top ==> 1 <= e.id <= |songs|
  }

  /** The output elements for the kept entries, each with the catalog data at
      position `id - 1`. */
  function Reports(top: seq<Entry>, songs: seq<Song>): (rs: seq<Reported>)
    requires InCatalog(top, songs)
    ensures |rs| == |top|
  {
    if |top| == 0 then []
    else
      var last := top[|top| - 1];
      Reports(top[..|top| - 1], songs) + [Reported(songs[last.id - 1], last.score)]
  }

  /** One step of the report loop over `rank[i..]`. */
  lemma TopStep(rank: seq<Entry>, i: nat, k: nat, used: set<int>)
    requires i < |rank| && k > 0
    ensures Top(rank[i..], k, used) ==
      if rank[i].id in used then Top(rank[i + 1..], k, used)
      else [rank[i]] + Top(rank[i + 1..], k - 1, used + {rank[i].id})
  {
    assert rank[i..][1..] == rank[i + 1..];
  }

  /** The loop has kept `top` from `rank[..i]`, with `k` songs still to report
      and the ids `taken` used: what is left to keep completes the report. */
  predicate Progress(rank: seq<Entry>, top: seq<Entry>, i: nat, k: nat, taken: set<int>) {
    i <= |rank| && top + Top(rank[i..], k, taken) == Top(rank, MaxResults, {})
  }

  /** One turn of the report loop keeps `Progress`. */
  lemma ProgressStep(rank: seq<Entry>, top: seq<Entry>, i: nat, k: nat, taken: set<int>)
    requires i < |rank| && k > 0 && Progress(rank, top, i, k, taken)
    ensures rank[i].id in taken ==> Progress(rank, top, i + 1, k, taken)
    ensures rank[i].id !in taken ==> Progress(rank, top + [rank[i]], i + 1, k - 1, taken + {rank[i].id})
  {
    TopStep(rank, i, k, taken);
    if rank[i].id !in taken {
      var rest := Top(rank[i + 1..], k - 1, taken + {rank[i].id});
      assert (top + [rank[i]]) + rest == top + ([rank[i]] + rest);
    }
  }

  /** When the loop stops, everything has been kept. */
  lemma ProgressDone(rank: seq<Entry>, top: seq<Entry>, i: nat, k: nat, taken: set<int>)
    requires Progress(rank, top, i, k, taken) && (k == 0 || i == |rank|)
    ensures top == Top(rank, MaxResults, {})
  {
    assert Top(rank[i..], k, taken) == [];
  }

  /** Reporting one more entry appends one output element. */
  lemma ReportsSnoc(top: seq<Entry>, e: Entry, songs: seq<Song>)
    requires InCatalog(top, songs) && 1 <= e.id <= |songs|
    ensures InCatalog(top + [e], songs)
    ensures Reports(top + [e], songs) == Reports(top, songs) + [Reported(songs[e.id - 1], e.score)]
  {
    var t := top + [e];
    assert t[..|t| - 1] == top;
    assert t[|t| - 1] == e;
  }

  /** The report loop of main, with its `used` array and counter `n`. */
  method TopSongs(rank: seq<Entry>, songs: seq<Song>) returns (report: seq<Reported>)
    requires forall e :: e in rank ==> 1 <= e.id <= IdCapacity && e.id <= |songs|
    ensures InCatalog(Top(rank, MaxResults, {}), songs) && report == Reports(Top(rank, MaxResults, {}), songs)
  {
    var used := new bool[IdCapacity](_ => false);
    var n, i := 0, 0;
    report := [];
    ghost var top: seq<Entry> := [];
    ghost var taken: set<int> := {};
    while n < MaxResults && i < |rank|
      invariant 0 <= i <= |rank| && n == |top| <= MaxResults
      invariant InCatalog(top, songs)
      invariant forall x :: 0 <= x < IdCapacity ==> (used[x] <==> x + 1 in taken)
      invariant Progress(rank, top, i, MaxResults - n, taken)
      invariant report == Reports(top, songs)
    {
      ProgressStep(rank, top, i, MaxResults - n, taken);
      var id := rank[i].id - 1;
      if !used[id] {
        used[id] := true;
        n := n + 1;
        report := report + [Reported(songs[rank[i].id - 1], rank[i].score)];
        ReportsSnoc(top, rank[i], songs);
        top := top + [rank[i]];
        taken := taken + {rank[i].id};
      }
      i := i + 1;
    }
    ProgressDone(rank, top, i, MaxResults - n, taken);
    TopInRank(rank, MaxResults, {});
  }

  /** At most `k` entries are kept, each taken from the rank list and with an id
      that was not used before. */
  lemma {:induction false} TopInRank(rank: seq<Entry>, k: nat, used: set<int>)
    ensures |Top(rank, k, used)| <= k
    ensures forall e :: e in Top(rank, k, used) ==> e in rank && e.id !in used
  {
    if k > 0 && |rank| > 0 {
      var rest := rank[1..];
      assert forall x :: x in rest ==> x in rank;
      if rank[0].id in used {
        TopInRank(rest, k, used);
      } else {
        TopInRank(rest, k - 1, used + {rank[0].id});
      }
    }
  }

  /** Each song is reported at most once. */
  lemma {:induction false} TopDistinct(rank: seq<Entry>, k: nat, used: set<int>)
    ensures forall i, j :: 0 <= i < j < |Top(rank, k, used)| ==> Top(rank, k, used)[i].id != Top(rank, k, used)[j].id
  {
    if k > 0 && |rank| > 0 {
      if rank[0].id in used {
        TopDistinct(rank[1..], k, used);
      } else {
        TopDistinct(rank[1..], k - 1, used + {rank[0].id});
        TopInRank(rank[1..], k - 1, used + {rank[0].id});
      }
    }
  }

  /** Reading a sorted rank list, the score reported for a song is its lowest:
      the first occurrence of an id wins and later ones are skipped. */
  lemma {:induction false} TopKeepsBestScore(rank: seq<Entry>, k: nat, used: set<int>, e: Entry, x: Entry)
    requires SortedBy(rank, Score)
    requires e in Top(rank, k, used) && x in rank && x.id == e.id
    ensures e.score <= x.score
  {
    var rest := rank[1..];
    assert SortedBy(rest, Score);
    assert x == rank[0] || x in rest;
    TopInRank(rank, k, used);
    if rank[0].id in used {
      TopKeepsBestScore(rest, k, used, e, x);
    } else {
      var tail := Top(rest, k - 1, used + {rank[0].id});
      TopInRank(rest, k - 1, used + {rank[0].id});
      if e in tail {
        TopKeepsBestScore(rest, k - 1, used + {rank[0].id}, e, x);
      } else {
        assert e == rank[0];
        var p :| 0 <= p < |rank| && rank[p] == x;
        assert p == 0 || Score(rank[0]) <= Score(rank[p]);
      }
    }
  }

  /** Reading a sorted rank list, the report keeps the best songs: a song of
      the rank list that is neither used nor reported scores no better than any
      reported song. */
  lemma {:induction false} TopIsBest(rank: seq<Entry>, k: nat, used: set<int>, e: Entry, x: Entry)
    requires SortedBy(rank, Score)
    requires e in Top(rank, k, used) && x in rank && x.id !in used
    requires forall f :: f in Top(rank, k, used) ==> f.id != x.id
    ensures e.score <= x.score
  {
    var rest := rank[1..];
    assert SortedBy(rest, Score);
    assert x == rank[0] || x in rest;
    if rank[0].id in used {
      TopIsBest(rest, k, used, e, x);
    } else {
      var tail := Top(rest, k - 1, used + {rank[0].id});
      assert rank[0] in Top(rank, k, used);
      assert forall f :: f in tail ==> f in Top(rank, k, used);
      if e in tail {
        TopIsBest(rest, k - 1, used + {rank[0].id}, e, x);
      } else {
        assert e == rank[0];
        var p :| 0 <= p < |rank| && rank[p] == x;
        assert p == 0 || Score(rank[0]) <= Score(rank[p]);
      }
    }
  }

  /** Reading a sorted rank list, the report is in non-decreasing score order. */
  lemma {:induction false} TopSorted(rank: seq<Entry>, k: nat, used: set<int>)
    requires SortedBy(rank, Score)
    ensures SortedBy(Top(rank, k, used), Score)
  {
    if k > 0 && |rank| > 0 {
      var rest := rank[1..];
      assert SortedBy(rest, Score);
      if rank[0].id in used {
        TopSorted(rest, k, used);
      } else {
        var tail := Top(rest, k - 1, used + {rank[0].id});
        TopSorted(rest, k - 1, used + {rank[0].id});
        TopInRank(rest, k - 1, used + {rank[0].id});
        if |tail| > 0 {
          assert tail[0] in rest;
          var p :| 0 <= p < |rest| && rest[p] == tail[0];
          assert rank[p + 1] == tail[0];
          InsertTail(rank[0], tail, Score);
        }
      }
    }
  }

  /** With room to spare, every song of the rank list that is not yet used is
      reported: the loop only stops early once `k` songs are kept. */
  lemma {:induction false} TopComplete(rank: seq<Entry>, k: nat, used: set<int>)
    requires |Top(rank, k, used)| < k
    ensures forall x :: x in rank && x.id !in used ==> exists e :: e in Top(rank, k, used) && e.id == x.id
  {
    if |rank| > 0 {
      var rest := rank[1..];
      assert forall x :: x in rank ==> x == rank[0] || x in rest;
      if rank[0].id in used {
        TopComplete(rest, k, used);
      } else {
        var tail := Top(rest, k - 1, used + {rank[0].id});
        TopComplete(rest, k - 1, used + {rank[0].id});
        assert Top(rank, k, used)[0] == rank[0];
        assert forall e :: e in tail ==> e in Top(rank, k, used);
      }
    }
  }

  // ---------------------------------------------------------------------------
  // The whole run

  /** One `<song>` of the database: its `id` attribute, its catalog data, and
      the parsed triplets of each of its samples. */
  datatype SongRecord = SongRecord(id: int, song: Song, samples: seq<seq<Event>>)

  /** The ids of the songs of the database. */
  function Ids(db: seq<SongRecord>): set<int> {
    set s | s in db :: s.id
  }

  /** The number of samples in the database. */
  function TotalSamples(db: seq<SongRecord>): nat {
    if |db| == 0 then 0 else TotalSamples(db[..|db| - 1]) + |db[|db| - 1].samples|
  }

  /** The catalog vector `songs`, filled in database order. */
  function Songs(db: seq<SongRecord>): (songs: seq<Song>)
    ensures |songs| == |db|
  {
    if |db| == 0 then [] else Songs(db[..|db| - 1]) + [db[|db| - 1].song]
  }

  /** The entries appended while song `id` is compared, sample by sample, with
      the encoded query: at most one per sample, all carrying the song's id. */
  function SampleEntries(m: MatchingMethod, query: seq<int>, id: int, samples: seq<seq<Event>>): (es: seq<Entry>)
    ensures |es| <= |samples|
    ensures forall e :: e in es ==> e.id == id
  {
    if |samples| == 0 then []
    else
      var last := samples[|samples| - 1];
      SampleEntries(m, query, id, samples[..|samples| - 1]) + Appended(id, MatchScore(m, query, Encode(m, last)))
  }

  /** The rank list after every song of the database has been compared: at most
      one entry per sample, each with the id of a song of the database. */
  function CatalogRank(m: MatchingMethod, query: seq<int>, db: seq<SongRecord>): (rank: seq<Entry>)
    ensures |rank| <= TotalSamples(db)
    ensures forall e :: e in rank ==> e.id in Ids(db)
  {
    if |db| == 0 then []
    else
      var init, last := db[..|db| - 1], db[|db| - 1];
      assert Ids(db) == Ids(init) + {last.id};
      CatalogRank(m, query, init) + SampleEntries(m, query, last.id, last.samples)
  }

  /** The songs the run reports for method `m`: the rank list sorted by `cmp`,
      read by the report loop. */
  function Ranked(m: MatchingMethod, hum: seq<Event>, db: seq<SongRecord>): seq<Entry> {
    Top(SortRank(CatalogRank(m, Encode(m, hum), db)), MaxResults, {})
  }

  /** Comparing one more sample appends what it contributes. */
  lemma SampleEntriesSnoc(m: MatchingMethod, query: seq<int>, id: int, samples: seq<seq<Event>>, k: nat)
    requires k < |samples|
    ensures SampleEntries(m, query, id, samples[..k + 1]) ==
      SampleEntries(m, query, id, samples[..k]) + Appended(id, MatchScore(m, query, Encode(m, samples[k])))
  {
    assert samples[..k + 1][..k] == samples[..k];
  }

  /** Comparing one more song appends what its samples contribute. */
  lemma CatalogSnoc(m: MatchingMethod, query: seq<int>, db: seq<SongRecord>, s: nat)
    requires s < |db|
    ensures CatalogRank(m, query, db[..s + 1]) == CatalogRank(m, query, db[..s]) + SampleEntries(m, query, db[s].id, db[s].samples)
    ensures Songs(db[..s + 1]) == Songs(db[..s]) + [db[s].song]
  {
    assert db[..s + 1][..s] == db[..s];
  }

  /** The body of the inner loop: encode sample `k` of a song and compare the
      query with it; `start` is the rank list before the song's first sample. */
  method CompareSample(m: MatchingMethod, query: seq<int>, id: int, samples: seq<seq<Event>>, k: nat,
                       start: seq<Entry>, rank: seq<Entry>) returns (rank': seq<Entry>)
    requires k < |samples| && rank == start + SampleEntries(m, query, id, samples[..k])
    ensures rank' == start + SampleEntries(m, query, id, samples[..k + 1])
  {
    var reference := ReadStream(m, samples[k]);
    rank' := Matching(m, query, reference, id, rank);
    SampleEntriesSnoc(m, query, id, samples, k);
    AppendStep(start, SampleEntries(m, query, id, samples[..k]), Appended(id, MatchScore(m, query, reference)),
      SampleEntries(m, query, id, samples[..k + 1]), rank, rank');
  }

  /** Appending to a list that extends `start` by `before`. */
  lemma AppendStep(start: seq<Entry>, before: seq<Entry>, added: seq<Entry>, after: seq<Entry>, rank: seq<Entry>, rank': seq<Entry>)
    requires rank == start + before && after == before + added && rank' == rank + added
    ensures rank' == start + after
  {
  }

  /** The inner loop of `main`: compare the query with each sample of one song,
      appending to the rank list. */
  method RankSong(m: MatchingMethod, query: seq<int>, record: SongRecord, rank: seq<Entry>) returns (rank': seq<Entry>)
    requires |record.samples| > 0
    ensures rank' == rank + SampleEntries(m, query, record.id, record.samples)
  {
    rank' := rank;
    var k := 0;
    while k < |record.samples|
      invariant 0 <= k <= |record.samples|
      invariant rank' == rank + SampleEntries(m, query, record.id, record.samples[..k])
    {
      rank' := CompareSample(m, query, record.id, record.samples, k, rank, rank');
      k := k + 1;
    }
    assert record.samples[..k] == record.samples;
  }

  /** The outer loop of `main`: collect each song's catalog data and compare the
      query with all its samples. */
  method RankCatalog(m: MatchingMethod, query: seq<int>, db: seq<SongRecord>) returns (rank: seq<Entry>, songs: seq<Song>)
    requires |db| > 0 && forall s :: s in db ==> |s.samples| > 0
    ensures rank == CatalogRank(m, query, db)
    ensures songs == Songs(db)
  {
    rank, songs := [], [];
    var s := 0;
    while s < |db|
      invariant 0 <= s <= |db|
      invariant rank == CatalogRank(m, query, db[..s])
      invariant songs == Songs(db[..s])
    {
      CatalogSnoc(m, query, db, s);
      songs := songs + [db[s].song];
      rank := RankSong(m, query, db[s], rank);
      s := s + 1;
    }
    assert db[..s] == db;
  }

  /** `main` after the arguments are parsed: validate the method, encode the
      query, compare it with every sample of every song, sort the rank list and
      report the top songs. The source dereferences the first song and the
      first sample of each song without a check, and indexes `used` and `songs`
      with the id, hence the preconditions. */
  method Retrieve(name: string, hum: seq<Event>, db: seq<SongRecord>) returns (result: Result<seq<Reported>>)
    requires |db| > 0 && forall s :: s in db ==> |s.samples| > 0
    requires forall s :: s in db ==> 1 <= s.id <= IdCapacity && s.id <= |db|
    ensures ParseMethod(name).Err? ==> result.Err?
    ensures ParseMethod(name).Ok? ==>
      var m := ParseMethod(name).value;
      InCatalog(Ranked(m, hum, db), Songs(db)) && result == Ok(Reports(Ranked(m, hum, db), Songs(db)))
  {
    var parsed := ParseMethod(name);
    if parsed.Err? {
      return Err(parsed.msg);
    }
    var m := parsed.value;
    var query := ReadStream(m, hum);
    var rank, songs := RankCatalog(m, query, db);
    var sorted := SortRank(rank);
    forall e | e in sorted
      ensures 1 <= e.id <= IdCapacity && e.id <= |songs|
    {
      assert e in multiset(rank);
    }
    var report := TopSongs(sorted, songs);
    result := Ok(report);
  }

  // ---------------------------------------------------------------------------
  // Properties of the run

  /** Every entry of the rank list has a positive score. */
  lemma {:induction false} CatalogRankPositive(m: MatchingMethod, query: seq<int>, db: seq<SongRecord>)
    ensures forall e :: e in CatalogRank(m, query, db) ==> e.score > 0.0
  {
    if |db| > 0 {
      CatalogRankPositive(m, query, db[..|db| - 1]);
      var last := db[|db| - 1];
      SampleEntriesPositive(m, query, last.id, last.samples);
    }
  }

  /** Every entry appended for a song's samples has a positive score. */
  lemma {:induction false} SampleEntriesPositive(m: MatchingMethod, query: seq<int>, id: int, samples: seq<seq<Event>>)
    ensures forall e :: e in SampleEntries(m, query, id, samples) ==> e.score > 0.0
  {
    if |samples| > 0 {
      SampleEntriesPositive(m, query, id, samples[..|samples| - 1]);
      MatchScorePositive(m, query, Encode(m, samples[|samples| - 1]));
    }
  }

  /** The "default" method compares nothing, so nothing is reported. */
  lemma {:induction false} DefaultReportsNothing(hum: seq<Event>, db: seq<SongRecord>)
    ensures CatalogRank(Default, Encode(Default, hum), db) == []
    ensures Ranked(Default, hum, db) == []
  {
    if |db| > 0 {
      DefaultReportsNothing(hum, db[..|db| - 1]);
      DefaultSamplesNothing(Encode(Default, hum), db[|db| - 1].id, db[|db| - 1].samples);
    }
  }

  /** Under "default", no sample of a song appends anything. */
  lemma {:induction false} DefaultSamplesNothing(query: seq<int>, id: int, samples: seq<seq<Event>>)
    ensures SampleEntries(Default, query, id, samples) == []
  {
    if |samples| > 0 {
      DefaultSamplesNothing(query, id, samples[..|samples| - 1]);
    }
  }

  /** The report of a run: at most five songs, each once, in non-decreasing
      order of score, each with a positive score that is the lowest score any
      sample of that song obtained; no song left out scores below a reported
      one, so the five reported are the best; and when fewer than five songs
      are reported, every song with a rank entry is among them. */
  lemma RankedReport(m: MatchingMethod, hum: seq<Event>, db: seq<SongRecord>)
    ensures |Ranked(m, hum, db)| <= MaxResults
    ensures forall i, j :: 0 <= i < j < |Ranked(m, hum, db)| ==> Ranked(m, hum, db)[i].id != Ranked(m, hum, db)[j].id
    ensures SortedBy(Ranked(m, hum, db), Score)
    ensures forall e :: e in Ranked(m, hum, db) ==> e in CatalogRank(m, Encode(m, hum), db) && e.score > 0.0
    ensures forall e, x :: e in Ranked(m, hum, db) && x in CatalogRank(m, Encode(m, hum), db) && x.id == e.id ==> e.score <= x.score
    ensures |Ranked(m, hum, db)| < MaxResults ==>
      forall x :: x in CatalogRank(m, Encode(m, hum), db) ==> exists e :: e in Ranked(m, hum, db) && e.id == x.id
    ensures forall e, x ::
      e in Ranked(m, hum, db) && x in CatalogRank(m, Encode(m, hum), db) && (forall f :: f in Ranked(m, hum, db) ==> f.id != x.id)
      ==> e.score <= x.score
  {
    var rank := CatalogRank(m, Encode(m, hum), db);
    var sorted := SortRank(rank);
    assert forall x :: x in sorted <==> x in rank by {
      forall x
        ensures x in sorted <==> x in rank
      {
        assert x in sorted <==> x in multiset(sorted);
        assert x in rank <==> x in multiset(rank);
      }
    }
    TopInRank(sorted, MaxResults, {});
    TopDistinct(sorted, MaxResults, {});
    TopSorted(sorted, MaxResults, {});
    CatalogRankPositive(m, Encode(m, hum), db);
    forall e, x | e in Ranked(m, hum, db) && x in rank && x.id == e.id
      ensures e.score <= x.score
    {
      TopKeepsBestScore(sorted, MaxResults, {}, e, x);
    }
    forall e, x | e in Ranked(m, hum, db) && x in rank && (forall f :: f in Ranked(m, hum, db) ==> f.id != x.id)
      ensures e.score <= x.score
    {
      TopIsBest(sorted, MaxResults, {}, e, x);
    }
    if |Ranked(m, hum, db)| < MaxResults {
      TopComplete(sorted, MaxResults, {});
    }
  }
}
