/** The ingest stage: merge the scraped files into one list, remap each
    scraped object into the eleven-field bill record, and keep the records
    of the selected committees and sessions. */
module RawPreprocess {
  import opened Common
  import opened Json
  import Text

  /** What `json.load` gave for one file. */
  datatype ParseOutcome = Parsed(value: Value) | DecodeError

  /** One file met by the directory walk, in walk order. */
  datatype WalkedFile = WalkedFile(name: string, content: ParseOutcome)

  /** What one file adds to the merged list: every element of a top-level
      list, a top-level object itself, and nothing for a file that is not
      named `*.json`, does not decode, or holds any other value. */
  function Contribution(f: WalkedFile): seq<Value>
  {
    if !Text.EndsWith(f.name, ".json") then []
    else match f.content
      case Parsed(Array(items)) => items
      case Parsed(Object(fields)) => [Object(fields)]
      case _ => []
  }

  /** The merged list: the contributions of the files, in walk order. */
  function Merged(files: seq<WalkedFile>): seq<Value>
  {
    if files == [] then []
    else Merged(files[..|files| - 1]) + Contribution(files[|files| - 1])
  }

  /** Merging distributes over the walk order: the files seen first
      contribute first, and one file's elements stay together. */
  lemma {:induction false} MergedConcat(a: seq<WalkedFile>, b: seq<WalkedFile>)
    ensures Merged(a + b) == Merged(a) + Merged(b)
    decreases |b|
  {
    if b == [] {
      assert a + b == a;
    } else {
      var b' := b[..|b| - 1];
      assert (a + b)[..|a + b| - 1] == a + b';
      assert (a + b)[|a + b| - 1] == b[|b| - 1];
      MergedConcat(a, b');
      var last := Contribution(b[|b| - 1]);
      assert Merged(a + b) == Merged(a + b') + last;
      assert Merged(b) == Merged(b') + last;
    }
  }

  /** `load_json_from_folder` over the files of the walk: extends the list by
      a list file's elements, appends an object file's value, and skips the
      rest. */
  method LoadJsonFromFolder(files: seq<WalkedFile>) returns (dataList: seq<Value>)
    ensures dataList == Merged(files)
  {
    dataList := [];
    for k := 0 to |files|
      invariant dataList == Merged(files[..k])
    {
      var f := files[k];
      if Text.EndsWith(f.name, ".json") {
        match f.content {
          case Parsed(data) =>
            if data.Array? {
              dataList := dataList + data.items;
            } else if data.Object? {
              dataList := dataList + [data];
            }
          case DecodeError =>
        }
      }
      assert files[..k + 1][..k] == files[..k];
    }
    assert files[..|files|] == files;
  }

  /** The keys of a bill record. */
  const BillKeys: set<string> :=
    {"id", "session", "title", "committee", "field", "paragraph",
     "enactment", "amendment", "terminology", "disposal", "date"}

  /** The scraped keys a bill record is built from. */
  const ScrapedKeys: set<string> :=
    {"bill_id", "session", "title", "committee", "field", "gen_summary",
     "enactment", "amendment", "terminology", "disposal", "date"}

  /** The scraped key a bill-record key is read from. */
  function SourceKey(k: string): string
  {
    if k == "id" then "bill_id" else if k == "paragraph" then "gen_summary" else k
  }

  /** The bill record built from one scraped object: `id` comes from
      `bill_id`, `paragraph` from `gen_summary`, every other field from the
      key of the same name, and a missing key gives "". */
  function Remap(d: Dict): (r: Dict)
    ensures r.Keys == BillKeys
    ensures r["id"] == Get(d, "bill_id", Str(""))
    ensures r["paragraph"] == Get(d, "gen_summary", Str(""))
    ensures forall k :: k in BillKeys && k != "id" && k != "paragraph" ==> r[k] == Get(d, k, Str(""))
  {
    map k | k in BillKeys :: Get(d, SourceKey(k), Str(""))
  }

  /** Only the scraped keys matter: any other key of the scraped object,
      `id` included, is dropped. */
  lemma RemapIgnoresOtherKeys(d: Dict, k: string, v: Value)
    requires k !in ScrapedKeys
    ensures Remap(d[k := v]) == Remap(d)
  {
    var r1, r2 := Remap(d[k := v]), Remap(d);
    forall key | key in BillKeys ensures r1[key] == r2[key] {
    }
  }

  /** `process_data`: a record for an object, `None` for any other value. */
  function ProcessData(v: Value): (r: Option<Dict>)
    ensures r.Some? <==> v.Object?
    ensures r.Some? ==> r.value == Remap(v.fields) && TruthyDict(r)
  {
    if v.Object? then
      var rec := Remap(v.fields);
      assert "id" in rec;
      Some(rec)
    else None
  }

  /** The processed list as `process_all_data` builds it: each input in
      order, kept when its processed form is truthy. */
  function ProcessAll(xs: seq<Value>): (r: seq<Dict>)
    ensures |r| <= |xs|
    ensures forall d :: d in r ==> d.Keys == BillKeys
  {
    if xs == [] then []
    else
      var p := ProcessData(xs[|xs| - 1]);
      ProcessAll(xs[..|xs| - 1]) + (if TruthyDict(p) then [p.value] else [])
  }

  /** The objects among the merged values, in order. */
  function Objects(xs: seq<Value>): seq<Dict>
  {
    if xs == [] then []
    else Objects(xs[..|xs| - 1]) + (if xs[|xs| - 1].Object? then [xs[|xs| - 1].fields] else [])
  }

  /** `process_all_data` keeps exactly one record per object input, in input
      order, and drops every other value: a processed object is never falsy. */
  lemma {:induction false} ProcessAllRemapsObjects(xs: seq<Value>)
    ensures |ProcessAll(xs)| == |Objects(xs)|
    ensures forall i :: 0 <= i < |Objects(xs)| ==> ProcessAll(xs)[i] == Remap(Objects(xs)[i])
  {
    if xs != [] {
      ProcessAllRemapsObjects(xs[..|xs| - 1]);
    }
  }

  /** `process_all_data`, with its loop. */
  method ProcessAllData(dataList: seq<Value>) returns (processed: seq<Dict>)
    ensures processed == ProcessAll(dataList)
  {
    processed := [];
    for k := 0 to |dataList|
      invariant processed == ProcessAll(dataList[..k])
    {
      var item := ProcessData(dataList[k]);
      if TruthyDict(item) {
        processed := processed + [item.value];
      }
      assert dataList[..k + 1][..k] == dataList[..k];
    }
    assert dataList[..|dataList|] == dataList;
  }

  /** The filter's test: `item.get("committee") in committees and
      item.get("session") in sessions`, by exact equality, so a missing key
      or a non-string value never passes. */
  predicate Selected(item: Dict, committees: seq<string>, sessions: seq<string>)
  {
    IsStringIn(item, "committee", committees) && IsStringIn(item, "session", sessions)
  }

  /** `filter_data`: the items that pass the test, in input order. */
  function FilterData(data: seq<Dict>, committees: seq<string>, sessions: seq<string>): (r: seq<Dict>)
    ensures |r| <= |data|
    ensures forall item :: item in r ==> item in data && Selected(item, committees, sessions)
  {
    if data == [] then []
    else
      (if Selected(data[0], committees, sessions) then [data[0]] else [])
      + FilterData(data[1..], committees, sessions)
  }

  /** `a` is `b` with some elements left out and the rest in order. */
  predicate IsSubsequence<T(==)>(a: seq<T>, b: seq<T>)
    decreases |b|
  {
    a == []
    || (b != [] && ((a[0] == b[0] && IsSubsequence(a[1..], b[1..])) || IsSubsequence(a, b[1..])))
  }

  /** Filtering keeps the relative order of the items it keeps. */
  lemma {:induction false} FilterIsSubsequence(data: seq<Dict>, committees: seq<string>, sessions: seq<string>)
    ensures IsSubsequence(FilterData(data, committees, sessions), data)
  {
    if data != [] {
      FilterIsSubsequence(data[1..], committees, sessions);
      var r := FilterData(data, committees, sessions);
      var rest := FilterData(data[1..], committees, sessions);
      if Selected(data[0], committees, sessions) {
        assert r[0] == data[0] && r[1..] == rest;
      } else {
        assert r == rest;
      }
    }
  }

  /** Every item that passes the test is kept as often as it occurs, and no
      other item is kept. */
  lemma {:induction false} FilterKeepsEverySelected(data: seq<Dict>, committees: seq<string>, sessions: seq<string>)
    ensures forall x :: multiset(FilterData(data, committees, sessions))[x]
                        == if Selected(x, committees, sessions) then multiset(data)[x] else 0
  {
    if data != [] {
      FilterKeepsEverySelected(data[1..], committees, sessions);
      assert data == [data[0]] + data[1..];
    }
  }

  /** Filtering already filtered data changes nothing. */
  lemma {:induction false} FilterIdempotent(data: seq<Dict>, committees: seq<string>, sessions: seq<string>)
    ensures FilterData(FilterData(data, committees, sessions), committees, sessions)
            == FilterData(data, committees, sessions)
  {
    if data != [] {
      FilterIdempotent(data[1..], committees, sessions);
      var rest := FilterData(data[1..], committees, sessions);
      if Selected(data[0], committees, sessions) {
        var r := [data[0]] + rest;
        assert r[0] == data[0] && r[1..] == rest;
        assert FilterData(data, committees, sessions) == r;
      } else {
        assert FilterData(data, committees, sessions) == rest;
      }
    }
  }

  /** The committee allow-list of the ingest run. */
  const SelectedCommittees: seq<string> := [
    "민생경제안정특별위원회", "법제사법위원회", "정무위원회", "보건복지위원회",
    "환경노동위원회", "국토교통위원회", "행정안전위원회", "교육문화체육관광위원회",
    "여성가족위원회", "기획재정위원회",
    "농림축산식품해양수산위원회", "예산결산특별위원회",
    "아동·여성대상성폭력대책특별위원회"
  ]

  /** The session allow-list of the ingest run: the strings "20" and "21". */
  const SelectedSessions: seq<string> := ["20", "21"]

  /** The ingest run without its file I/O: the merged list (written out as
      the merged file) and the filtered bill records (the final file). */
  method Preprocess(files: seq<WalkedFile>) returns (merged: seq<Value>, final: seq<Dict>)
    ensures merged == Merged(files)
    ensures final == FilterData(ProcessAll(merged), SelectedCommittees, SelectedSessions)
    ensures forall r :: r in final ==>
              r.Keys == BillKeys
              && (r["session"] == Str("20") || r["session"] == Str("21"))
              && r["committee"].Str? && r["committee"].s in SelectedCommittees
  {
    merged := LoadJsonFromFolder(files);
    var processed := ProcessAllData(merged);
    final := FilterData(processed, SelectedCommittees, SelectedSessions);
  }
}
