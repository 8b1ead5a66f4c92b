/**
 API documentation search: the process-wide cache of discovered sections, the frozen search index built
 from it, and the ranked search over that index.
 */
module SearchIndex {
  import opened Wrappers
  import opened SharedCache

  datatype Endpoint = Endpoint(path: string, displayPath: string, slug: string, viewClass: string, viewName: string,
                               docstring: string, methods: seq<string>)
  datatype Section = Section(name: string, slug: string, endpoints: seq<Endpoint>)

  /** One record: what is shown, and the lower-case texts that are searched. */
  datatype Record = Record(section: string, endpoint: string, pathLower: string, rawPathLower: string,
                           viewClassLower: string, docstringLower: string, viewNameLower: string,
                           sectionNameLower: string, methodsLower: seq<string>)

  function LowerChar(c: char): char {
    if 'A' <= c <= 'Z' then (c as int + 32) as char else c
  }

  function Lower(s: string): string {
    seq(|s|, i requires 0 <= i < |s| => LowerChar(s[i]))
  }

  function RecordOf(s: Section, e: Endpoint): Record {
    var display := if e.displayPath != "" then e.displayPath else e.path;
    Record(s.slug, e.slug, Lower(display), Lower(e.path), Lower(e.viewClass), Lower(e.docstring), Lower(e.viewName),
           Lower(s.name), LowerAll(e.methods))
  }

  /** The index of some sections: one record per endpoint, in order. */
  function IndexOf(sections: seq<Section>): seq<Record> {
    if sections == [] then []
    else
      IndexOf(sections[..|sections| - 1]) + RecordsOf(sections[|sections| - 1])
  }

  function RecordsOf(s: Section): seq<Record> {
    seq(|s.endpoints|, i requires 0 <= i < |s.endpoints| => RecordOf(s, s.endpoints[i]))
  }

  /** How many endpoints the first `i` sections have. */
  function Endpoints(sections: seq<Section>, i: nat): nat
    requires i <= |sections|
  {
    if i == 0 then 0 else Endpoints(sections, i - 1) + |sections[i - 1].endpoints|
  }

  lemma {:induction false} EndpointsSoFar(sections: seq<Section>, more: seq<Section>, i: nat)
    requires i <= |sections|
    ensures Endpoints(sections + more, i) == Endpoints(sections, i)
  {
    if i > 0 {
      EndpointsSoFar(sections, more, i - 1);
    }
  }

  lemma {:induction false} IndexLength(sections: seq<Section>)
    ensures |IndexOf(sections)| == Endpoints(sections, |sections|)
  {
    if sections != [] {
      var k := |sections| - 1;
      IndexLength(sections[..k]);
      assert sections[..k] + sections[k..] == sections;
      EndpointsSoFar(sections[..k], sections[k..], k);
    }
  }

  /** The record of the j-th endpoint of the i-th section stands behind those of all endpoints before it. */
  lemma {:induction false} RecordAt(sections: seq<Section>, i: nat, j: nat)
    requires i < |sections| && j < |sections[i].endpoints|
    ensures Endpoints(sections, i) + j < |IndexOf(sections)|
    ensures IndexOf(sections)[Endpoints(sections, i) + j] == RecordOf(sections[i], sections[i].endpoints[j])
  {
    var k := |sections| - 1;
    assert sections[..k] + sections[k..] == sections;
    EndpointsSoFar(sections[..k], sections[k..], i);
    IndexLength(sections[..k]);
    if i < k {
      RecordAt(sections[..k], i, j);
    }
  }

  /** The inner loop: one record appended per endpoint. */
  method AppendRecords(before: seq<Record>, s: Section) returns (index: seq<Record>)
    ensures index == before + RecordsOf(s)
  {
    index := before;
    var j := 0;
    while j < |s.endpoints|
      invariant j <= |s.endpoints| && index == before + RecordsOf(s)[..j]
    {
      index := index + [RecordOf(s, s.endpoints[j])];
      j := j + 1;
    }
  }

  method BuildIndex(sections: seq<Section>) returns (index: seq<Record>)
    ensures index == IndexOf(sections)
  {
    index := [];
    var i := 0;
    while i < |sections|
      invariant i <= |sections| && index == IndexOf(sections[..i])
    {
      assert sections[..i + 1][..i] == sections[..i];
      index := AppendRecords(index, sections[i]);
      i := i + 1;
    }
    assert sections[..i] == sections;
  }

  // ---------------------------------------------------------------- the caches

  /** The module's globals and the shared cache entry. A timestamp of 0 means there is nothing. */
  datatype State = State(sections: Option<seq<Section>>, timestamp: real, index: Option<seq<Record>>, indexStamp: real,
                         shared: Option<Entry<seq<Section>>>)

  datatype Settings = Settings(enabled: bool, ttl: real)

  /** `found` is what walking the URL patterns would find; `now` and `later` are the clock readings at
      the beginning and when the result is stored. */
  datatype Call =
    | Discover(now: real, later: real, found: seq<Section>)
    | Search(now: real, later: real, found: seq<Section>)
    | Invalidate
    /** Another process writes or deletes the shared entry. */
    | Elsewhere(shared: Option<Entry<seq<Section>>>)

  function Empty(): State {
    State(None, 0.0, None, 0.0, None)
  }

  /** `discover_api_endpoints`: the sections it returns, and the caches after it. */
  function Discovered(c: Settings, s: State, now: real, later: real, found: seq<Section>): (seq<Section>, State) {
    if c.enabled && s.sections.Some? && now - s.timestamp < c.ttl then
      (s.sections.value, s)
    else if c.enabled && c.ttl > 0.0 && Get(s.shared, now).Some? then
      var sections := Get(s.shared, now).value;
      (sections, s.(sections := Some(sections), timestamp := later))
    else if c.enabled then
      (found, s.(sections := Some(found), timestamp := later,
                 shared := if c.ttl > 0.0 then Set(found, later, c.ttl) else s.shared))
    else
      (found, s)
  }

  /** `build_search_index`: the index is stamped with the timestamp read before discovery. */
  function Searched(c: Settings, s: State, now: real, later: real, found: seq<Section>): (seq<Record>, State) {
    if s.index.Some? && s.indexStamp == s.timestamp then
      (s.index.value, s)
    else
      var (sections, t) := Discovered(c, s, now, later, found);
      (IndexOf(sections), t.(index := Some(IndexOf(sections)), indexStamp := s.timestamp))
  }

  function After(c: Settings, s: State, call: Call): State {
    match call
    case Discover(now, later, found) => Discovered(c, s, now, later, found).1
    case Search(now, later, found) => Searched(c, s, now, later, found).1
    case Invalidate => Empty()
    case Elsewhere(shared) => s.(shared := shared)
  }

  class Introspection {
    var sections: Option<seq<Section>>
    var timestamp: real
    var index: Option<seq<Record>>
    var indexStamp: real
    var shared: Option<Entry<seq<Section>>>

    constructor ()
      ensures Model() == Empty()
    {
      sections, timestamp, index, indexStamp, shared := None, 0.0, None, 0.0, None;
    }

    ghost function Model(): State
      reads this
    {
      State(sections, timestamp, index, indexStamp, shared)
    }

    method InvalidateCache()
      modifies this
      ensures Model() == Empty() && forall c :: Model() == After(c, old(Model()), Invalidate)
    {
      sections, timestamp := None, 0.0;
      shared := None;
      index, indexStamp := None, 0.0;
    }

    /** What is returned is cached afterwards, if caching is on; it was found, or cached here or in the shared
        cache; and while the process's cache is young enough nothing changes. The index is not touched. */
    method DiscoverEndpoints(c: Settings, now: real, later: real, found: seq<Section>) returns (result: seq<Section>)
      modifies this
      ensures (result, Model()) == Discovered(c, old(Model()), now, later, found)
      ensures !c.enabled ==> result == found && Model() == old(Model())
      ensures c.enabled ==> sections == Some(result) && timestamp in {old(timestamp), later}
      ensures result == found || old(sections) == Some(result) || Get(old(shared), now) == Some(result)
      ensures c.enabled && old(sections).Some? && now - old(timestamp) < c.ttl ==> Model() == old(Model())
      ensures c.enabled && !(old(sections).Some? && now - old(timestamp) < c.ttl) ==>
                if c.ttl > 0.0 && Get(old(shared), now).Some? then
                  Get(old(shared), now) == Some(result) && shared == old(shared)
                else
                  result == found && shared == if c.ttl > 0.0 then Some(Entry(found, later + c.ttl)) else old(shared)
      ensures index == old(index) && indexStamp == old(indexStamp)
    {
      if c.enabled && sections.Some? {
        var age := now - timestamp;
        if age < c.ttl {
          return sections.value;
        }
      }
      if c.enabled && c.ttl > 0.0 {
        var cached := Get(shared, now);
        if cached.Some? {
          sections, timestamp := cached, later;
          return cached.value;
        }
      }
      if c.enabled {
        sections, timestamp := Some(found), later;
        if c.ttl > 0.0 {
          shared := Set(found, later, c.ttl);
        }
      }
      result := found;
    }

    method BuildSearchIndex(c: Settings, now: real, later: real, found: seq<Section>) returns (result: seq<Record>)
      modifies this
      ensures (result, Model()) == Searched(c, old(Model()), now, later, found)
    {
      var stamp := timestamp;
      if index.Some? && indexStamp == stamp {
        return index.value;
      }
      var discovered := DiscoverEndpoints(c, now, later, found);
      result := BuildIndex(discovered);
      index, indexStamp := Some(result), stamp;
    }
  }

  // ---------------------------------------------------------------- the index is never of older sections

  /** Clock readings are positive and never run backwards. */
  ghost predicate Ordered(calls: seq<Call>) {
    && (forall i :: 0 <= i < |calls| && ReadsClock(calls[i]) ==>
          0.0 < calls[i].now <= calls[i].later)
    && (forall i, j :: 0 <= i < j < |calls| && ReadsClock(calls[i]) && ReadsClock(calls[j]) ==>
          calls[i].later <= calls[j].now)
  }

  predicate ReadsClock(call: Call) {
    call.Discover? || call.Search?
  }

  function Final(c: Settings, calls: seq<Call>): State {
    if calls == [] then Empty() else After(c, Final(c, calls[..|calls| - 1]), calls[|calls| - 1])
  }

  /** The timestamp is a reading of the run's clock. */
  ghost predicate StampedBy(s: State, calls: seq<Call>) {
    s.timestamp > 0.0 ==>
      exists i :: 0 <= i < |calls| && ReadsClock(calls[i]) && s.timestamp == calls[i].later
  }

  ghost predicate Inv(s: State) {
    && s.timestamp >= 0.0
    && (s.timestamp == 0.0 ==> s.sections == None && s.index == None)
    && (s.timestamp > 0.0 ==> s.sections.Some?)
    && (s.index.Some? ==> s.indexStamp <= s.timestamp)
    && (s.index.Some? && s.indexStamp == s.timestamp ==> s.index.value == IndexOf(s.sections.value))
  }

  /** A discovery stores other sections at the very clock reading that the index was stamped with. */
  predicate Overwrites(c: Settings, s: State, call: Call) {
    && call.Discover? && s.index.Some? && s.indexStamp == s.timestamp == call.later
    && IndexOf(Discovered(c, s, call.now, call.later, call.found).0) != s.index.value
  }

  /** A call keeps index and sections in step exactly when it is not such a discovery, whatever the lifetime is;
      and a search is right from every state in which they are. */
  lemma CallKeeps(c: Settings, s: State, call: Call)
    requires c.enabled && Inv(s)
    requires ReadsClock(call) ==> 0.0 < call.now <= call.later && s.timestamp <= call.now
    ensures Inv(After(c, s, call)) <==> !Overwrites(c, s, call)
    ensures call.Search? ==>
              var (index, t) := Searched(c, s, call.now, call.later, call.found);
              t.sections.Some? && index == IndexOf(t.sections.value)
  {
  }

  /** The clock has moved on whenever a result is stored. */
  ghost predicate Strict(calls: seq<Call>) {
    forall i, j :: 0 <= i < j < |calls| && ReadsClock(calls[i]) && ReadsClock(calls[j]) ==>
      calls[i].later < calls[j].later
  }

  ghost predicate NeverOverwrites(c: Settings, calls: seq<Call>) {
    forall i :: 0 <= i < |calls| ==> !Overwrites(c, Final(c, calls[..i]), calls[i])
  }

  /** The same for the calls so far and the last one. */
  lemma OneCallLess(c: Settings, calls: seq<Call>)
    requires calls != []
    ensures var k := |calls| - 1;
            NeverOverwrites(c, calls)
            <==> NeverOverwrites(c, calls[..k]) && !Overwrites(c, Final(c, calls[..k]), calls[k])
  {
    var k := |calls| - 1;
    forall i | 0 <= i < k ensures calls[..k][..i] == calls[..i] {
    }
    if NeverOverwrites(c, calls[..k]) {
      forall i | 0 <= i < k ensures !Overwrites(c, Final(c, calls[..i]), calls[i]) {
        assert !Overwrites(c, Final(c, calls[..k][..i]), calls[..k][i]);
      }
    }
  }

  lemma OrderedSoFar(calls: seq<Call>)
    requires calls != [] && Ordered(calls)
    ensures Ordered(calls[..|calls| - 1])
  {
  }

  lemma {:induction false} RunKeeps(c: Settings, calls: seq<Call>)
    requires c.enabled && Ordered(calls) && NeverOverwrites(c, calls)
    ensures Inv(Final(c, calls)) && StampedBy(Final(c, calls), calls)
  {
    if calls != [] {
      var k := |calls| - 1;
      OrderedSoFar(calls);
      OneCallLess(c, calls);
      RunKeeps(c, calls[..k]);
      StampBefore(Final(c, calls[..k]), calls);
      CallKeeps(c, Final(c, calls[..k]), calls[k]);
      StampStays(c, Final(c, calls[..k]), calls);
    }
  }

  lemma StampStays(c: Settings, s: State, calls: seq<Call>)
    requires calls != [] && StampedBy(s, calls[..|calls| - 1])
    ensures StampedBy(After(c, s, calls[|calls| - 1]), calls)
  {
    var k := |calls| - 1;
    var t := After(c, s, calls[k]);
    if t.timestamp > 0.0 && t.timestamp == s.timestamp {
      var i :| 0 <= i < k && ReadsClock(calls[i]) && s.timestamp == calls[i].later;
      assert calls[i].later == t.timestamp;
    } else if t.timestamp > 0.0 {
      assert calls[k].later == t.timestamp;
    }
  }

  lemma StampBefore(s: State, calls: seq<Call>)
    requires calls != [] && Ordered(calls) && StampedBy(s, calls[..|calls| - 1]) && s.timestamp >= 0.0
    ensures var call := calls[|calls| - 1];
            ReadsClock(call) ==>
              s.timestamp <= call.now && (Strict(calls) && 0.0 < call.now ==> s.timestamp < call.later)
  {
    if s.timestamp > 0.0 {
      var i :| 0 <= i < |calls| - 1 && ReadsClock(calls[i]) && s.timestamp == calls[i].later;
    }
  }

  /** With a positive lifetime, or a clock that moves on in between, no discovery does. */
  lemma {:induction false} UsuallyNeverOverwrites(c: Settings, calls: seq<Call>)
    requires c.enabled && Ordered(calls) && (c.ttl > 0.0 || Strict(calls))
    ensures NeverOverwrites(c, calls)
  {
    if calls != [] {
      var k := |calls| - 1;
      OrderedSoFar(calls);
      OneCallLess(c, calls);
      UsuallyNeverOverwrites(c, calls[..k]);
      RunKeeps(c, calls[..k]);
      ClockMovesOn(c, Final(c, calls[..k]), calls);
    }
  }

  lemma ClockMovesOn(c: Settings, s: State, calls: seq<Call>)
    requires c.enabled && calls != [] && Ordered(calls) && (c.ttl > 0.0 || Strict(calls))
    requires Inv(s) && StampedBy(s, calls[..|calls| - 1])
    ensures !Overwrites(c, s, calls[|calls| - 1])
  {
    StampBefore(s, calls);
  }

  /** With caching on, every search works on the index of the sections that are cached right then, whatever was
      discovered, expired, invalidated or shared before, in every run without such a discovery. */
  lemma SearchSeesCachedSections(c: Settings, calls: seq<Call>, search: Call)
    requires c.enabled && search.Search? && Ordered(calls + [search]) && NeverOverwrites(c, calls)
    ensures var (index, t) := Searched(c, Final(c, calls), search.now, search.later, search.found);
            t.sections.Some? && index == IndexOf(t.sections.value)
  {
    var all := calls + [search];
    assert all[..|all| - 1] == calls;
    assert Ordered(calls) by {
      assert forall i :: 0 <= i < |calls| ==> calls[i] == all[i];
    }
    RunKeeps(c, calls);
    StampBefore(Final(c, calls), all);
    CallKeeps(c, Final(c, calls), search);
  }

  /** It needs that: with a lifetime of zero and a clock that stands still, a search returns the index of
      sections that are no longer cached. */
  lemma StillClockServesOldIndex(c: Settings, a: seq<Section>, b: seq<Section>)
    requires c.enabled && c.ttl <= 0.0
    ensures var calls := [Search(1.0, 1.0, a), Search(1.0, 1.0, a), Discover(1.0, 1.0, b)];
            var (index, t) := Searched(c, Final(c, calls), 1.0, 1.0, b);
            Ordered(calls + [Search(1.0, 1.0, b)]) && t.sections == Some(b) && index == IndexOf(a)
  {
    var search, discover := Search(1.0, 1.0, a), Discover(1.0, 1.0, b);
    assert [search][..0] == [] && [search, search][..1] == [search];
    assert [search, search, discover][..2] == [search, search];
    assert Final(c, [search]) == State(Some(a), 1.0, Some(IndexOf(a)), 0.0, None);
    assert Final(c, [search, search]) == State(Some(a), 1.0, Some(IndexOf(a)), 1.0, None);
    assert Final(c, [search, search, discover]) == State(Some(b), 1.0, Some(IndexOf(a)), 1.0, None);
  }

  /** With caching off it is the other way round: the first index is served until it is invalidated. */
  lemma {:induction false} WithoutCacheFirstIndexStays(c: Settings, first: Call, more: seq<Call>)
    requires !c.enabled && first.Search? && forall i :: 0 <= i < |more| ==> !more[i].Invalidate?
    ensures Final(c, [first] + more).index == Some(IndexOf(first.found))
    ensures Final(c, [first] + more).timestamp == Final(c, [first] + more).indexStamp == 0.0
  {
    var all := [first] + more;
    if more == [] {
      assert all[..0] == [];
    } else {
      assert all[..|all| - 1] == [first] + more[..|more| - 1];
      WithoutCacheFirstIndexStays(c, first, more[..|more| - 1]);
    }
  }

  // ---------------------------------------------------------------- the ranked search

  const MAX_RESULTS := 50

  predicate Contains(text: string, query: string) {
    exists i :: 0 <= i <= |text| - |query| && OccursAt(text, query, i)
  }

  predicate OccursAt(text: string, query: string, i: nat)
    requires i <= |text| - |query|
  {
    text[i..i + |query|] == query
  }

  function MethodPoints(methods: seq<string>, query: string): nat {
    if methods == [] then 0 else (if methods[0] == query then 8 else 0) + MethodPoints(methods[1..], query)
  }

  function Points(r: Record, query: string): nat {
    (if Contains(r.pathLower, query) then 10 else 0)
    + (if Contains(r.rawPathLower, query) then 5 else 0)
    + (if Contains(r.viewClassLower, query) then 5 else 0)
    + (if Contains(r.docstringLower, query) then 3 else 0)
    + (if Contains(r.viewNameLower, query) then 5 else 0)
    + (if Contains(r.sectionNameLower, query) then 2 else 0)
    + MethodPoints(r.methodsLower, query)
  }

  /** A text contains another one exactly when it is something, that one, and something. */
  lemma Containing(query: string, a: string, b: string)
    ensures Contains(a + query + b, query)
  {
    assert OccursAt(a + query + b, query, |a|);
  }

  lemma ContainedParts(text: string, query: string) returns (a: string, b: string)
    requires Contains(text, query)
    ensures text == a + query + b
  {
    var i :| 0 <= i <= |text| - |query| && OccursAt(text, query, i);
    a, b := text[..i], text[i + |query|..];
  }

  /** What an endpoint scores, over its own fields: 10 points for the path that is shown, 5 each for its full path,
      its view class and its view's name, 3 for the documentation, 2 for the section, all in lower case. */
  lemma EndpointScores(s: Section, e: Endpoint, query: string)
    ensures Points(RecordOf(s, e), query) ==
            (if Contains(Lower(if e.displayPath == "" then e.path else e.displayPath), query) then 10 else 0)
            + (if Contains(Lower(e.path), query) then 5 else 0)
            + (if Contains(Lower(e.viewClass), query) then 5 else 0)
            + (if Contains(Lower(e.docstring), query) then 3 else 0)
            + (if Contains(Lower(e.viewName), query) then 5 else 0)
            + (if Contains(Lower(s.name), query) then 2 else 0)
            + 8 * MethodsNamed(e.methods, query)
    ensures RecordOf(s, e).section == s.slug && RecordOf(s, e).endpoint == e.slug
  {
    MethodsScore(e.methods, query);
  }

  /** How many of the methods the query names. */
  function MethodsNamed(methods: seq<string>, query: string): nat {
    if methods == [] then 0 else (if Lower(methods[0]) == query then 1 else 0) + MethodsNamed(methods[1..], query)
  }

  function LowerAll(methods: seq<string>): seq<string> {
    seq(|methods|, i requires 0 <= i < |methods| => Lower(methods[i]))
  }

  lemma {:induction false} MethodsScore(methods: seq<string>, query: string)
    ensures MethodPoints(LowerAll(methods), query) == 8 * MethodsNamed(methods, query)
  {
    if methods != [] {
      assert LowerAll(methods)[1..] == LowerAll(methods[1..]);
      MethodsScore(methods[1..], query);
    }
  }

  /** Upper-case letters become their lower-case ones, and nothing else changes. */
  lemma LowerIs(s: string, i: nat)
    requires i < |s|
    ensures |Lower(s)| == |s| && (!('A' <= s[i] <= 'Z') ==> Lower(s)[i] == s[i])
    ensures 'A' <= s[i] <= 'Z' ==> Lower(s)[i] as int - 'a' as int == s[i] as int - 'A' as int
  {
  }

  /** A result: the record's position in the index, and its score. */
  datatype Hit = Hit(position: nat, score: nat)

  /** `a` is listed before `b`: higher score, or the same and earlier in the index. */
  predicate Before(a: Hit, b: Hit) {
    a.score > b.score || (a.score == b.score && a.position < b.position)
  }

  ghost predicate Ranked(hits: seq<Hit>) {
    forall i, j :: 0 <= i < j < |hits| ==> Before(hits[i], hits[j])
  }

  /** The hits are exactly the records of `index` with a positive score. */
  ghost predicate AllHits(hits: seq<Hit>, index: seq<Record>, query: string) {
    forall h :: h in hits <==> h.position < |index| && h.score == Points(index[h.position], query) > 0
  }

  /** One round of a stable sort: behind everything that scores at least as much. */
  function Place(hits: seq<Hit>, h: Hit): seq<Hit> {
    if hits == [] || hits[0].score < h.score then [h] + hits
    else [hits[0]] + Place(hits[1..], h)
  }

  /** `results.sort(key=score, reverse=True)`, which keeps the order of equal scores. */
  function StableSort(hits: seq<Hit>): seq<Hit> {
    if hits == [] then [] else Place(StableSort(hits[..|hits| - 1]), hits[|hits| - 1])
  }

  lemma {:induction false} PlaceKeeps(hits: seq<Hit>, h: Hit)
    requires Ranked(hits) && forall g :: g in hits ==> g.position < h.position
    ensures Ranked(Place(hits, h))
    ensures forall g :: g in Place(hits, h) <==> g in hits || g == h
    ensures |Place(hits, h)| == |hits| + 1
  {
    if hits == [] || hits[0].score < h.score {
      var r := [h] + hits;
      forall i, j | 0 <= i < j < |r| ensures Before(r[i], r[j]) {
        if i == 0 && j > 1 {
          assert Before(hits[0], hits[j - 1]);
        }
      }
    } else {
      PlaceKeeps(hits[1..], h);
      var rest := Place(hits[1..], h);
      forall g | g in rest ensures Before(hits[0], g) {
        assert hits[0] in hits;
      }
    }
  }

  lemma {:induction false} SortRanks(hits: seq<Hit>)
    requires forall i, j :: 0 <= i < j < |hits| ==> hits[i].position < hits[j].position
    ensures Ranked(StableSort(hits)) && |StableSort(hits)| == |hits|
    ensures forall h :: h in StableSort(hits) <==> h in hits
  {
    if hits != [] {
      var before, last := hits[..|hits| - 1], hits[|hits| - 1];
      SortRanks(before);
      PlaceKeeps(StableSort(before), last);
      assert hits == before + [last];
    }
  }

  /** A ranking is unique: there is one order, and one set of hits to put in it. */
  lemma {:induction false} RankingIsUnique(a: seq<Hit>, b: seq<Hit>)
    requires Ranked(a) && Ranked(b) && forall h :: h in a <==> h in b
    ensures a == b
  {
    if a == [] {
      if b != [] { FirstIsIn(b); }
    } else {
      assert a[0] in a && a[0] in b;
      assert b[0] in b && b[0] in a;
      assert a[0] == b[0];
      forall h ensures h in a[1..] <==> h in b[1..] {
        InTail(a, h);
        InTail(b, h);
      }
      RankingIsUnique(a[1..], b[1..]);
      assert a == [a[0]] + a[1..] && b == [b[0]] + b[1..];
    }
  }

  lemma FirstIsIn(b: seq<Hit>)
    requires b != []
    ensures b[0] in b
  {
  }

  lemma InTail(a: seq<Hit>, h: Hit)
    requires Ranked(a) && a != []
    ensures h in a[1..] <==> h in a && h != a[0]
  {
  }

  method ScoreOf(record: Record, query: string) returns (score: nat)
    ensures score == Points(record, query)
  {
    score := 0;
    if Contains(record.pathLower, query) { score := score + 10; }
    if Contains(record.rawPathLower, query) { score := score + 5; }
    if Contains(record.viewClassLower, query) { score := score + 5; }
    if Contains(record.docstringLower, query) { score := score + 3; }
    if Contains(record.viewNameLower, query) { score := score + 5; }
    if Contains(record.sectionNameLower, query) { score := score + 2; }
    var i := 0;
    while i < |record.methodsLower|
      invariant i <= |record.methodsLower|
      invariant score + MethodPoints(record.methodsLower[i..], query) == Points(record, query)
    {
      if record.methodsLower[i] == query { score := score + 8; }
      i := i + 1;
    }
  }

  /** The first loop of `search_native`: the records that match, in index order. */
  method Matches(index: seq<Record>, query: string) returns (hits: seq<Hit>)
    ensures AllHits(hits, index, query)
    ensures forall i, j :: 0 <= i < j < |hits| ==> hits[i].position < hits[j].position
  {
    hits := [];
    var i := 0;
    while i < |index|
      invariant i <= |index| && AllHits(hits, index[..i], query)
      invariant forall j, k :: 0 <= j < k < |hits| ==> hits[j].position < hits[k].position
    {
      var score := ScoreOf(index[i], query);
      if score > 0 {
        forall j | 0 <= j < |hits| ensures hits[j].position < i {
          assert hits[j] in hits;
        }
        hits := hits + [Hit(i, score)];
      }
      i := i + 1;
    }
    assert index[..i] == index;
  }

  /** `search_native`: the head of the one ranking of all matching records, at most fifty of them. What
      it leaves out is ranked behind everything it returns. */
  method SearchNative(index: seq<Record>, query: string) returns (results: seq<Hit>)
    ensures Ranked(results) && |results| <= 50
    ensures forall h :: h in results ==> h.position < |index| && h.score == Points(index[h.position], query) > 0
    ensures forall h: Hit ::
              h.position < |index| && h.score == Points(index[h.position], query) > 0 && h !in results ==>
              |results| == 50 && forall r :: r in results ==> Before(r, h)
    ensures forall all :: Ranked(all) && AllHits(all, index, query) ==>
              results == if |all| < 50 then all else all[..50]
  {
    var hits := Matches(index, query);
    SortRanks(hits);
    var sorted := StableSort(hits);
    results := if |sorted| < MAX_RESULTS then sorted else sorted[..MAX_RESULTS];
    forall all | Ranked(all) && AllHits(all, index, query) ensures all == sorted {
      RankingIsUnique(all, sorted);
    }
  }
}
