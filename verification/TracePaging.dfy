// src/autobench/mlflow_report.py, download_traces: paging a newest-first listing down to a cutoff.
module TracePaging {
  import opened Wrappers

  // One entry of the listing; times in milliseconds, either of which the server may leave out.
  datatype Trace = Trace(id: string, timestampMs: Option<int>, executionMs: Option<int>)

  datatype Page = Page(traces: seq<Trace>, hasToken: bool)

  predicate LongEnough(t: Trace, minDurationS: real) {
    t.executionMs.None? || t.executionMs.value as real / 1000.0 >= minDurationS
  }

  // The entry that ends the paging.
  predicate TooOld(t: Trace, sinceMs: Option<int>) {
    sinceMs.Some? && t.timestampMs.Some? && t.timestampMs.value < sinceMs.value
  }

  // The pages the loop can get to see: up to the first that is empty or carries no token.
  function Served(pages: seq<Page>): seq<Page> {
    if pages == [] then []
    else if Ends(pages[0]) then [pages[0]]
    else [pages[0]] + Served(pages[1..])
  }

  function Listing(pages: seq<Page>): seq<Trace> {
    if pages == [] then [] else pages[0].traces + Listing(pages[1..])
  }

  // The entries before the first one that is too old.
  function Recent(listing: seq<Trace>, sinceMs: Option<int>): seq<Trace> {
    if listing == [] || TooOld(listing[0], sinceMs) then []
    else [listing[0]] + Recent(listing[1..], sinceMs)
  }

  function Long(listing: seq<Trace>, minDurationS: real): seq<Trace> {
    if listing == [] then []
    else if LongEnough(listing[0], minDurationS) then [listing[0]] + Long(listing[1..], minDurationS)
    else Long(listing[1..], minDurationS)
  }

  function Kept(listing: seq<Trace>, sinceMs: Option<int>, minDurationS: real): seq<Trace> {
    Long(Recent(listing, sinceMs), minDurationS)
  }

  predicate CutIn(listing: seq<Trace>, sinceMs: Option<int>) {
    exists t :: t in listing && TooOld(t, sinceMs)
  }

  // The pages the server would answer with, one after the other; the last one ends the listing.
  method DownloadKept(pages: seq<Page>, sinceMs: Option<int>, minDurationS: real) returns (kept: seq<Trace>)
    requires pages != [] && !pages[|pages| - 1].hasToken
    ensures kept == Kept(Listing(Served(pages)), sinceMs, minDurationS)
  {
    kept := [];
    var next := 0;
    ghost var ahead := Suffixes(pages, sinceMs, minDurationS);
    while true
      invariant next < |pages|
      invariant ahead[0] == kept + ahead[next]
      decreases |pages| - next
    {
      var page := pages[next];
      var found, reachedCutoff := ScanPage(page.traces, sinceMs, minDurationS);
      assert kept + (found + ahead[next + 1]) == (kept + found) + ahead[next + 1];
      kept := kept + found;
      if reachedCutoff || Ends(page) {
        assert kept == ahead[0];
        break;
      }
      next := next + 1;
    }
  }

  predicate Ends(page: Page) {
    !page.hasToken || page.traces == []
  }

  predicate KeepsFrom(page: Page, now: seq<Trace>, next: seq<Trace>, sinceMs: Option<int>, minDurationS: real) {
    var here := Kept(page.traces, sinceMs, minDurationS);
    now == if CutIn(page.traces, sinceMs) || Ends(page) then here else here + next
  }

  // What is kept from each page on.
  lemma Suffixes(pages: seq<Page>, sinceMs: Option<int>, minDurationS: real) returns (ahead: seq<seq<Trace>>)
    requires pages != []
    ensures |ahead| == |pages| + 1 && ahead[0] == Kept(Listing(Served(pages)), sinceMs, minDurationS)
    ensures forall i :: 0 <= i < |pages| ==> KeepsFrom(pages[i], ahead[i], ahead[i + 1], sinceMs, minDurationS)
  {
    ahead := seq(|pages| + 1, i requires 0 <= i <= |pages| => Kept(Listing(Served(pages[i..])), sinceMs, minDurationS));
    assert pages[0..] == pages;
    forall i | 0 <= i < |pages|
      ensures KeepsFrom(pages[i], ahead[i], ahead[i + 1], sinceMs, minDurationS)
    {
      ServedFrom(pages, i);
      if Ends(pages[i]) {
        assert pages[i].traces + [] == pages[i].traces;
      } else {
        KeptConcat(pages[i].traces, Listing(Served(pages[i + 1..])), sinceMs, minDurationS);
      }
    }
  }

  lemma KeptConcat(a: seq<Trace>, b: seq<Trace>, sinceMs: Option<int>, minDurationS: real)
    ensures Kept(a + b, sinceMs, minDurationS)
         == if CutIn(a, sinceMs) then Kept(a, sinceMs, minDurationS)
            else Kept(a, sinceMs, minDurationS) + Kept(b, sinceMs, minDurationS)
  {
    RecentConcat(a, b, sinceMs);
    RecentConcat(a, [], sinceMs);
    assert a + [] == a;
    if !CutIn(a, sinceMs) {
      LongConcat(a, Recent(b, sinceMs), minDurationS);
    }
  }

  // The body of the loop over one page.
  method ScanPage(traces: seq<Trace>, sinceMs: Option<int>, minDurationS: real)
    returns (found: seq<Trace>, reachedCutoff: bool)
    ensures found == Kept(traces, sinceMs, minDurationS)
    ensures reachedCutoff <==> CutIn(traces, sinceMs)
  {
    found, reachedCutoff := [], false;
    for i := 0 to |traces|
      invariant !CutIn(traces[..i], sinceMs)
      invariant found == Long(traces[..i], minDurationS)
    {
      assert traces == traces[..i] + traces[i..];
      assert traces[..i + 1] == traces[..i] + [traces[i]];
      if TooOld(traces[i], sinceMs) {
        RecentConcat(traces[..i], traces[i..], sinceMs);
        assert traces[..i] + [] == traces[..i];
        return found, true;
      }
      LongConcat(traces[..i], [traces[i]], minDurationS);
      if LongEnough(traces[i], minDurationS) {
        found := found + [traces[i]];
      }
    }
    assert traces[..|traces|] == traces && traces + [] == traces;
    RecentConcat(traces, [], sinceMs);
  }

  lemma ServedFrom(pages: seq<Page>, next: nat)
    requires next < |pages|
    ensures var page := pages[next];
      Listing(Served(pages[next..]))
        == page.traces + if Ends(page) then [] else Listing(Served(pages[next + 1..]))
  {
    var page, rest := pages[next], pages[next..];
    assert rest[0] == page && rest[1..] == pages[next + 1..];
    if Ends(page) {
      assert [page][1..] == [];
    } else {
      assert ([page] + Served(rest[1..]))[1..] == Served(rest[1..]);
    }
  }

  lemma {:induction false} RecentConcat(a: seq<Trace>, b: seq<Trace>, sinceMs: Option<int>)
    ensures Recent(a + b, sinceMs) == if CutIn(a, sinceMs) then Recent(a, sinceMs) else a + Recent(b, sinceMs)
  {
    if a == [] {
      assert a + b == b;
    } else {
      assert (a + b)[1..] == a[1..] + b;
      RecentConcat(a[1..], b, sinceMs);
      assert forall t :: t in a <==> t == a[0] || t in a[1..];
    }
  }

  lemma {:induction false} LongConcat(a: seq<Trace>, b: seq<Trace>, minDurationS: real)
    ensures Long(a + b, minDurationS) == Long(a, minDurationS) + Long(b, minDurationS)
  {
    if a == [] {
      assert a + b == b;
    } else {
      assert (a + b)[1..] == a[1..] + b;
      LongConcat(a[1..], b, minDurationS);
    }
  }

  // ---------------------------------------------------------------- a well-behaved server

  // Every page but the last has entries and a token, so the server lists everything it has.
  predicate NoEarlyEnd(pages: seq<Page>) {
    forall i :: 0 <= i < |pages| - 1 ==> pages[i].hasToken && pages[i].traces != []
  }

  predicate NewestFirst(listing: seq<Trace>) {
    && (forall t :: t in listing ==> t.timestampMs.Some?)
    && (forall i, j :: 0 <= i < j < |listing| ==> listing[i].timestampMs.value >= listing[j].timestampMs.value)
  }

  // The whole listing, filtered entry by entry.
  function Wanted(listing: seq<Trace>, sinceMs: Option<int>, minDurationS: real): seq<Trace> {
    if listing == [] then []
    else
      (if !TooOld(listing[0], sinceMs) && LongEnough(listing[0], minDurationS) then [listing[0]] else [])
      + Wanted(listing[1..], sinceMs, minDurationS)
  }

  lemma {:induction false} WantedConcat(a: seq<Trace>, b: seq<Trace>, sinceMs: Option<int>, minDurationS: real)
    ensures Wanted(a + b, sinceMs, minDurationS) == Wanted(a, sinceMs, minDurationS) + Wanted(b, sinceMs, minDurationS)
  {
    if a == [] {
      assert a + b == b;
    } else {
      assert (a + b)[1..] == a[1..] + b;
      WantedConcat(a[1..], b, sinceMs, minDurationS);
    }
  }

  // An entry is wanted, at its place, if and only if it is no older than the cutoff and did not run for
  // less than the least duration; a missing time speaks for it.
  lemma WantedIff(a: seq<Trace>, t: Trace, b: seq<Trace>, sinceMs: Option<int>, minDurationS: real)
    ensures Wanted(a + [t] + b, sinceMs, minDurationS)
         == Wanted(a, sinceMs, minDurationS)
            + (if && (sinceMs.None? || t.timestampMs.None? || t.timestampMs.value >= sinceMs.value)
                  && (t.executionMs.None? || t.executionMs.value as real >= minDurationS * 1000.0)
               then [t] else [])
            + Wanted(b, sinceMs, minDurationS)
  {
    WantedConcat(a + [t], b, sinceMs, minDurationS);
    WantedConcat(a, [t], sinceMs, minDurationS);
    assert [t][1..] == [];
  }

  // Stopping at the first old entry then loses nothing.
  lemma {:induction false} CutoffIsFilter(listing: seq<Trace>, sinceMs: Option<int>, minDurationS: real)
    requires NewestFirst(listing)
    ensures Kept(listing, sinceMs, minDurationS) == Wanted(listing, sinceMs, minDurationS)
  {
    if listing == [] {
    } else {
      if TooOld(listing[0], sinceMs) {
        AllTooOld(listing, sinceMs, minDurationS);
      } else {
        CutoffIsFilter(listing[1..], sinceMs, minDurationS);
        assert ([listing[0]] + Recent(listing[1..], sinceMs))[1..] == Recent(listing[1..], sinceMs);
      }
    }
  }

  lemma {:induction false} AllTooOld(listing: seq<Trace>, sinceMs: Option<int>, minDurationS: real)
    requires forall t :: t in listing ==> TooOld(t, sinceMs)
    ensures Wanted(listing, sinceMs, minDurationS) == []
  {
    if listing == [] {
    } else {
      AllTooOld(listing[1..], sinceMs, minDurationS);
    }
  }

  lemma {:induction false} AllServed(pages: seq<Page>)
    requires NoEarlyEnd(pages)
    ensures Served(pages) == pages
  {
    if |pages| <= 1 {
    } else {
      AllServed(pages[1..]);
    }
  }

  // The pages are read up to the first that has no token, or nothing on it.
  lemma {:induction false} ServedUpTo(pages: seq<Page>, n: nat)
    requires n < |pages| && (!pages[n].hasToken || pages[n].traces == [])
    requires forall i :: 0 <= i < n ==> pages[i].hasToken && pages[i].traces != []
    ensures Served(pages) == pages[..n + 1]
  {
    if n == 0 {
    } else {
      ServedUpTo(pages[1..], n - 1);
      assert pages[..n + 1] == [pages[0]] + pages[1..][..n];
    }
  }

  // What is kept of a newest-first listing is the listing filtered, wherever the page breaks fall.
  lemma PageBreaksDoNotMatter(pages: seq<Page>, others: seq<Page>, sinceMs: Option<int>, minDurationS: real)
    requires NoEarlyEnd(pages) && NoEarlyEnd(others) && Listing(pages) == Listing(others)
    requires NewestFirst(Listing(pages))
    ensures Kept(Listing(Served(pages)), sinceMs, minDurationS)
         == Kept(Listing(Served(others)), sinceMs, minDurationS)
         == Wanted(Listing(pages), sinceMs, minDurationS)
  {
    AllServed(pages);
    AllServed(others);
    CutoffIsFilter(Listing(pages), sinceMs, minDurationS);
  }
}
