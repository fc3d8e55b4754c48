// src/autobench/s3_export.py: upload everything of a run, then the manifest that lists it.
module S3Export {
  import opened Wrappers

  // What a bucket holds: a number of bytes, and for a manifest what they say.
  datatype Content = Data(digest: string) | Index(refs: seq<Ref>)

  datatype Body = Body(size: nat, content: Content)

  datatype Ref = Ref(name: string, format: string, key: string, sizeBytes: nat)

  type Objects = map<string, Body>

  // ---------------------------------------------------------------- the plan

  datatype Item = Item(name: string, format: string, body: Body)

  // The serialised parts of a run; rows that make no Parquet file raise.
  datatype Parts = Parts(
    runJson: Body,
    report: Body,
    tokens: Body,
    spans: Body,
    hasRecords: bool,
    hasSpans: bool,
    reportParquet: Outcome<Body>,
    tokensParquet: Outcome<Body>,
    spansParquet: Outcome<Body>)

  function DataItems(p: Parts): Outcome<seq<Item>> {
    if p.hasRecords && (p.reportParquet.Raised? || p.tokensParquet.Raised?) then Raised
    else
      var always := [Item("run.json", "json", p.runJson), Item("report.ndjson", "ndjson", p.report),
                     Item("token_report.ndjson", "ndjson", p.tokens)];
      var withSpans := if p.hasSpans then always + [Item("span_report.ndjson", "ndjson", p.spans)] else always;
      var withParquet :=
        if p.hasRecords
        then withSpans + [Item("report.parquet", "parquet", p.reportParquet.value)]
                       + [Item("token_report.parquet", "parquet", p.tokensParquet.value)]
        else withSpans;
      Returned(if p.hasSpans && p.spansParquet.Returned?
               then withParquet + [Item("span_report.parquet", "parquet", p.spansParquet.value)]
               else withParquet)
  }

  const MANIFEST := "manifest.json"

  function KeyOf(prefix: string, name: string): string {
    prefix + "/" + name
  }

  function RefOf(prefix: string, item: Item): Ref {
    Ref(item.name, item.format, KeyOf(prefix, item.name), item.body.size)
  }

  function Refs(prefix: string, items: seq<Item>): seq<Ref> {
    seq(|items|, i requires 0 <= i < |items| => RefOf(prefix, items[i]))
  }

  // The length of the JSON text of a manifest.
  type Encoding = seq<Ref> -> nat

  function ManifestItem(prefix: string, data: seq<Item>, encoding: Encoding): Item {
    Item(MANIFEST, "json", Body(encoding(Refs(prefix, data)), Index(Refs(prefix, data))))
  }

  predicate DistinctNames(items: seq<Item>) {
    forall i, j :: 0 <= i < j < |items| ==> items[i].name != items[j].name
  }

  lemma PlanNamesDistinct(p: Parts)
    requires DataItems(p).Returned?
    ensures DistinctNames(DataItems(p).value)
    ensures forall i :: 0 <= i < |DataItems(p).value| ==> DataItems(p).value[i].name != MANIFEST
  {
  }

  // Which part goes out under which name, and when. The names are distinct, and by the number of the
  // objects there are no others.
  lemma PlannedParts(p: Parts)
    ensures DataItems(p).Returned? <==> (p.hasRecords ==> p.reportParquet.Returned? && p.tokensParquet.Returned?)
    ensures DataItems(p).Returned? ==>
      var d := DataItems(p).value;
      && DistinctNames(d)
      && Item("run.json", "json", p.runJson) in d
      && Item("report.ndjson", "ndjson", p.report) in d
      && Item("token_report.ndjson", "ndjson", p.tokens) in d
      && (p.hasSpans ==> Item("span_report.ndjson", "ndjson", p.spans) in d)
      && (p.hasRecords ==> Item("report.parquet", "parquet", p.reportParquet.value) in d)
      && (p.hasRecords ==> Item("token_report.parquet", "parquet", p.tokensParquet.value) in d)
      && (p.hasSpans && p.spansParquet.Returned? ==>
            Item("span_report.parquet", "parquet", p.spansParquet.value) in d)
      && |d| == 3 + (if p.hasSpans then 1 else 0) + (if p.hasRecords then 2 else 0)
                + (if p.hasSpans && p.spansParquet.Returned? then 1 else 0)
  {
    if DataItems(p).Returned? {
      PlanNamesDistinct(p);
    }
  }

  // The span Parquet file is the last thing planned, and failing to make it costs nothing else.
  lemma SpanParquetOnlyDegrades(p: Parts, made: Body)
    requires p.spansParquet.Raised?
    ensures DataItems(p).Raised? <==> p.hasRecords && (p.reportParquet.Raised? || p.tokensParquet.Raised?)
    ensures var with := DataItems(p.(spansParquet := Returned(made)));
      if DataItems(p).Raised? then with.Raised?
      else with == Returned(DataItems(p).value
                            + if p.hasSpans then [Item("span_report.parquet", "parquet", made)] else [])
  {
    if DataItems(p).Returned? {
      assert DataItems(p).value + [] == DataItems(p).value;
    }
  }

  // ---------------------------------------------------------------- uploading

  // The bucket after the first n items were stored.
  function Uploaded(before: Objects, prefix: string, items: seq<Item>, n: nat): Objects
    requires n <= |items|
  {
    if n == 0 then before
    else Uploaded(before, prefix, items, n - 1)[KeyOf(prefix, items[n - 1].name) := items[n - 1].body]
  }

  ghost predicate SomeStage(o: Objects, before: Objects, prefix: string, items: seq<Item>) {
    exists n :: 0 <= n <= |items| && o == Uploaded(before, prefix, items, n)
  }

  class Bucket {
    var objects: Objects
    ghost var history: seq<Objects>

    constructor (objects: Objects)
      ensures this.objects == objects && history == []
    {
      this.objects := objects;
      history := [];
    }

    // One put_object: it stores the body and returns, or throws, before or after it stored.
    method PutObject(key: string, body: Body, acl: bool) returns (threw: bool)
      modifies this
      ensures objects == old(objects)[key := body] || (threw && objects == old(objects))
      ensures history == old(history) + [objects]
    {
      threw :| true;
      var stored: bool :| !threw ==> stored;
      if stored {
        objects := objects[key := body];
      }
      history := history + [objects];
    }
  }

  // _put: a failed public-read put is tried once more without the ACL.
  method Put(bucket: Bucket, key: string, body: Body, publicRead: bool) returns (threw: bool)
    modifies bucket
    ensures bucket.objects == old(bucket.objects)[key := body] || (threw && bucket.objects == old(bucket.objects))
    ensures |bucket.history| >= |old(bucket.history)| && bucket.history[..|old(bucket.history)|] == old(bucket.history)
    ensures forall h :: h in bucket.history[|old(bucket.history)|..] ==>
      h == old(bucket.objects) || h == old(bucket.objects)[key := body]
  {
    threw := bucket.PutObject(key, body, publicRead);
    if threw && publicRead {
      threw := bucket.PutObject(key, body, false);
    }
  }

  // Everything is built before anything is uploaded; only the span Parquet may fail quietly.
  method PlanData(p: Parts) returns (r: Outcome<seq<Item>>)
    ensures r == DataItems(p)
  {
    var planned := [Item("run.json", "json", p.runJson), Item("report.ndjson", "ndjson", p.report),
                    Item("token_report.ndjson", "ndjson", p.tokens)];
    if p.hasSpans {
      planned := planned + [Item("span_report.ndjson", "ndjson", p.spans)];
    }
    if p.hasRecords {
      if p.reportParquet.Raised? {
        return Raised;
      }
      planned := planned + [Item("report.parquet", "parquet", p.reportParquet.value)];
      if p.tokensParquet.Raised? {
        return Raised;
      }
      planned := planned + [Item("token_report.parquet", "parquet", p.tokensParquet.value)];
    }
    if p.hasSpans {
      if p.spansParquet.Returned? {
        planned := planned + [Item("span_report.parquet", "parquet", p.spansParquet.value)];
      }
    }
    r := Returned(planned);
  }

  lemma HistoryGrows(first: seq<Objects>, earlier: seq<Objects>, now: seq<Objects>)
    requires |first| <= |earlier| <= |now| && earlier[..|first|] == first && now[..|earlier|] == earlier
    ensures now[..|first|] == first && now[|first|..] == earlier[|first|..] + now[|earlier|..]
  {
    assert now == earlier + now[|earlier|..];
  }

  lemma StagesFollow(before: Objects, prefix: string, items: seq<Item>, n: nat)
    requires n < |items|
    ensures SomeStage(Uploaded(before, prefix, items, n), before, prefix, items)
    ensures var stage := Uploaded(before, prefix, items, n);
      SomeStage(stage[KeyOf(prefix, items[n].name) := items[n].body], before, prefix, items)
  {
    assert Uploaded(before, prefix, items, n + 1)
        == Uploaded(before, prefix, items, n)[KeyOf(prefix, items[n].name) := items[n].body];
  }

  method UploadAll(bucket: Bucket, prefix: string, planned: seq<Item>, publicRead: bool) returns (r: Outcome<seq<Ref>>)
    modifies bucket
    ensures |bucket.history| >= |old(bucket.history)|
    ensures bucket.history[..|old(bucket.history)|] == old(bucket.history)
    ensures forall h :: h in bucket.history[|old(bucket.history)|..] ==>
      SomeStage(h, old(bucket.objects), prefix, planned)
    ensures SomeStage(bucket.objects, old(bucket.objects), prefix, planned)
    ensures r.Returned? ==> r.value == Refs(prefix, planned)
    ensures r.Returned? ==> bucket.objects == Uploaded(old(bucket.objects), prefix, planned, |planned|)
  {
    var artifacts: seq<Ref> := [];
    for n := 0 to |planned|
      invariant artifacts == Refs(prefix, planned[..n])
      invariant bucket.objects == Uploaded(old(bucket.objects), prefix, planned, n)
      invariant |bucket.history| >= |old(bucket.history)|
      invariant bucket.history[..|old(bucket.history)|] == old(bucket.history)
      invariant forall h :: h in bucket.history[|old(bucket.history)|..] ==>
        SomeStage(h, old(bucket.objects), prefix, planned)
    {
      ghost var earlier := bucket.history;
      var item := planned[n];
      var threw := Put(bucket, KeyOf(prefix, item.name), item.body, publicRead);
      StagesFollow(old(bucket.objects), prefix, planned, n);
      HistoryGrows(old(bucket.history), earlier, bucket.history);
      if threw {
        return Raised;
      }
      artifacts := artifacts + [RefOf(prefix, item)];
      assert artifacts == Refs(prefix, planned[..n + 1]);
    }
    assert planned[..|planned|] == planned;
    r := Returned(artifacts);
  }

  // _export_sync.  At every instant the bucket is at some stage of the upload: nothing is stored out
  // of order, and a failure stops the upload where it is.
  method ExportSync(bucket: Bucket, prefix: string, parts: Parts, publicRead: bool, encoding: Encoding)
    returns (r: Outcome<seq<Ref>>)
    modifies bucket
    ensures DataItems(parts).Raised? ==> r.Raised? && bucket.objects == old(bucket.objects)
    ensures DataItems(parts).Returned? ==>
      var data := DataItems(parts).value;
      var items := data + [ManifestItem(prefix, data, encoding)];
      && |bucket.history| >= |old(bucket.history)|
      && bucket.history[..|old(bucket.history)|] == old(bucket.history)
      && (forall h :: h in bucket.history[|old(bucket.history)|..] ==> SomeStage(h, old(bucket.objects), prefix, items))
      && SomeStage(bucket.objects, old(bucket.objects), prefix, items)
      && (r.Returned? ==> r.value == Refs(prefix, items)
                          && bucket.objects == Uploaded(old(bucket.objects), prefix, items, |items|))
  {
    var data := PlanData(parts);
    if data.Raised? {
      return Raised;
    }
    var planned := data.value + [ManifestItem(prefix, data.value, encoding)];
    r := UploadAll(bucket, prefix, planned, publicRead);
  }

  // ---------------------------------------------------------------- what a reader can rely on

  predicate HasManifest(o: Objects, prefix: string) {
    KeyOf(prefix, MANIFEST) in o && o[KeyOf(prefix, MANIFEST)].content.Index?
  }

  // Every object the manifest lists is there, with exactly the listed size.
  predicate Consistent(o: Objects, prefix: string) {
    HasManifest(o, prefix) ==>
      forall ref :: ref in o[KeyOf(prefix, MANIFEST)].content.refs ==> ref.key in o && o[ref.key].size == ref.sizeBytes
  }

  // No object this export writes has another size than an older manifest at the prefix lists for it.
  predicate NoStaleSize(before: Objects, prefix: string, data: seq<Item>) {
    HasManifest(before, prefix) ==>
      forall ref, i ::
        (&& ref in before[KeyOf(prefix, MANIFEST)].content.refs
         && 0 <= i < |data| && ref.key == KeyOf(prefix, data[i].name))
        ==> ref.sizeBytes == data[i].body.size
  }

  lemma KeysInjective(prefix: string, a: string, b: string)
    ensures KeyOf(prefix, a) == KeyOf(prefix, b) <==> a == b
  {
    assert KeyOf(prefix, a)[|prefix| + 1..] == a;
    assert KeyOf(prefix, b)[|prefix| + 1..] == b;
  }

  // What a key holds after n uploads.
  lemma {:induction false} UploadedAt(before: Objects, prefix: string, items: seq<Item>, n: nat, key: string)
    requires n <= |items| && DistinctNames(items)
    ensures forall i :: 0 <= i < n && key == KeyOf(prefix, items[i].name) ==>
      key in Uploaded(before, prefix, items, n) && Uploaded(before, prefix, items, n)[key] == items[i].body
    ensures (forall i :: 0 <= i < n ==> key != KeyOf(prefix, items[i].name)) ==>
      && (key in Uploaded(before, prefix, items, n) <==> key in before)
      && (key in before ==> Uploaded(before, prefix, items, n)[key] == before[key])
  {
    if n == 0 {
    } else {
      UploadedAt(before, prefix, items, n - 1, key);
      forall i | 0 <= i < n && key == KeyOf(prefix, items[i].name) == KeyOf(prefix, items[n - 1].name)
        ensures i == n - 1
      {
        KeysInjective(prefix, items[i].name, items[n - 1].name);
      }
    }
  }

  ghost predicate SafeAtEveryPoint(before: Objects, prefix: string, items: seq<Item>) {
    forall n :: 0 <= n <= |items| ==> Consistent(Uploaded(before, prefix, items, n), prefix)
  }

  // An export is safe at every failure point exactly when no older manifest at its prefix lists
  // another size for an object it overwrites; on a fresh prefix there is no such manifest.
  lemma SafeIffNoStaleSize(before: Objects, prefix: string, data: seq<Item>, encoding: Encoding)
    requires Consistent(before, prefix)
    requires DistinctNames(data) && forall i :: 0 <= i < |data| ==> data[i].name != MANIFEST
    ensures var items := data + [ManifestItem(prefix, data, encoding)];
      SafeAtEveryPoint(before, prefix, items) <==> NoStaleSize(before, prefix, data)
  {
    var items := data + [ManifestItem(prefix, data, encoding)];
    assert DistinctNames(items);
    forall n | 0 <= n <= |data|
      ensures HasManifest(Uploaded(before, prefix, items, n), prefix) == HasManifest(before, prefix)
        && (HasManifest(before, prefix) ==>
            Uploaded(before, prefix, items, n)[KeyOf(prefix, MANIFEST)] == before[KeyOf(prefix, MANIFEST)])
    {
      ManifestUntouched(before, prefix, data, items, n);
    }
    if NoStaleSize(before, prefix, data) {
      forall n | 0 <= n <= |items| ensures Consistent(Uploaded(before, prefix, items, n), prefix) {
        if n == |items| {
          CompleteIsConsistent(before, prefix, data, items, encoding);
        } else {
          PartialIsConsistent(before, prefix, data, items, n);
        }
      }
    } else {
      var ref, i :| ref in before[KeyOf(prefix, MANIFEST)].content.refs && 0 <= i < |data|
        && ref.key == KeyOf(prefix, data[i].name) && ref.sizeBytes != data[i].body.size;
      UploadedAt(before, prefix, items, i + 1, ref.key);
      assert items[i] == data[i];
      assert !Consistent(Uploaded(before, prefix, items, i + 1), prefix);
    }
  }

  lemma ManifestUntouched(before: Objects, prefix: string, data: seq<Item>, items: seq<Item>, n: nat)
    requires DistinctNames(items) && data <= items && n <= |data|
    requires forall i :: 0 <= i < |data| ==> data[i].name != MANIFEST
    ensures var key, o := KeyOf(prefix, MANIFEST), Uploaded(before, prefix, items, n);
      (key in o <==> key in before) && (key in before ==> o[key] == before[key])
  {
    UploadedAt(before, prefix, items, n, KeyOf(prefix, MANIFEST));
    forall i | 0 <= i < n ensures KeyOf(prefix, MANIFEST) != KeyOf(prefix, items[i].name) {
      KeysInjective(prefix, MANIFEST, items[i].name);
      assert items[i] == data[i];
    }
  }

  lemma PartialIsConsistent(before: Objects, prefix: string, data: seq<Item>, items: seq<Item>, n: nat)
    requires Consistent(before, prefix) && NoStaleSize(before, prefix, data)
    requires DistinctNames(items) && data <= items && n <= |data|
    requires forall i :: 0 <= i < |data| ==> data[i].name != MANIFEST
    ensures Consistent(Uploaded(before, prefix, items, n), prefix)
  {
    var key, o := KeyOf(prefix, MANIFEST), Uploaded(before, prefix, items, n);
    ManifestUntouched(before, prefix, data, items, n);
    if HasManifest(o, prefix) {
      forall ref | ref in o[key].content.refs ensures ref.key in o && o[ref.key].size == ref.sizeBytes {
        UploadedAt(before, prefix, items, n, ref.key);
        if i :| 0 <= i < n && ref.key == KeyOf(prefix, items[i].name) {
          assert items[i] == data[i];
        }
      }
    }
  }

  lemma CompleteIsConsistent(before: Objects, prefix: string, data: seq<Item>, items: seq<Item>, encoding: Encoding)
    requires items == data + [ManifestItem(prefix, data, encoding)] && DistinctNames(items)
    ensures Consistent(Uploaded(before, prefix, items, |items|), prefix)
    ensures forall i :: 0 <= i < |data| ==>
      var key := KeyOf(prefix, data[i].name);
      key in Uploaded(before, prefix, items, |items|) && Uploaded(before, prefix, items, |items|)[key] == data[i].body
    ensures var o, key := Uploaded(before, prefix, items, |items|), prefix + "/" + "manifest.json";
      && key in o && o[key].content.Index? && |o[key].content.refs| == |data|
      && o[key].size == encoding(o[key].content.refs)
      && forall i :: 0 <= i < |data| ==>
        o[key].content.refs[i]
          == Ref(data[i].name, data[i].format, prefix + "/" + data[i].name, data[i].body.size)
  {
    var key, o := KeyOf(prefix, MANIFEST), Uploaded(before, prefix, items, |items|);
    assert items[|data|] == ManifestItem(prefix, data, encoding);
    UploadedAt(before, prefix, items, |items|, key);
    forall i | 0 <= i < |data| ensures var k := KeyOf(prefix, data[i].name); k in o && o[k] == data[i].body {
      UploadedAt(before, prefix, items, |items|, KeyOf(prefix, data[i].name));
      assert items[i] == data[i];
    }
    forall ref | ref in o[key].content.refs ensures ref.key in o && o[ref.key].size == ref.sizeBytes {
      var i :| 0 <= i < |data| && Refs(prefix, data)[i] == ref;
    }
  }

  // Wherever an export to a prefix without a manifest stops, a manifest that is there tells the truth.
  lemma FreshPrefixIsSafe(before: Objects, o: Objects, prefix: string, parts: Parts, encoding: Encoding)
    requires DataItems(parts).Returned? && KeyOf(prefix, MANIFEST) !in before
    requires var data := DataItems(parts).value;
      SomeStage(o, before, prefix, data + [ManifestItem(prefix, data, encoding)])
    ensures Consistent(o, prefix)
  {
    PlanNamesDistinct(parts);
    SafeIffNoStaleSize(before, prefix, DataItems(parts).value, encoding);
  }

  // A second export over a first one of another size: once the new object is there and the new
  // manifest is not, the old manifest lists a size the object no longer has.
  lemma StaleManifestLies(prefix: string, before: Objects, data: seq<Item>)
    requires data == [Item("run.json", "json", Body(2, Data("new")))]
    requires var key := KeyOf(prefix, "run.json");
      before == map[key := Body(1, Data("old")),
                    KeyOf(prefix, MANIFEST) := Body(1, Index([Ref("run.json", "json", key, 1)]))]
    ensures Consistent(before, prefix) && !NoStaleSize(before, prefix, data)
    ensures HasManifest(Uploaded(before, prefix, data, 1), prefix)
    ensures !Consistent(Uploaded(before, prefix, data, 1), prefix)
  {
    var key, refs := KeyOf(prefix, "run.json"), [Ref("run.json", "json", KeyOf(prefix, "run.json"), 1)];
    assert "run.json" != MANIFEST by {
      assert |"run.json"| != |MANIFEST|;
    }
    KeysInjective(prefix, "run.json", MANIFEST);
    assert before[KeyOf(prefix, MANIFEST)].content.refs == refs && refs[0] in refs;
    assert Uploaded(before, prefix, data, 1) == Uploaded(before, prefix, data, 0)[key := data[0].body];
    assert Uploaded(before, prefix, data, 1)[key].size == 2;
  }
}
