/** The API auditor: the score of a report, and collapsing findings that are one concern. */
module Auditor {
  import opened Wrappers
  import opened DecimalText

  datatype Severity = Critical | Warning | Info

  datatype Finding = Finding(rule: string, severity: Severity, path: string, key: string,
                             paths: seq<string>, methods: seq<string>)

  // ---------------------------------------------------------------- the score

  function Weight(severity: Severity): nat {
    match severity
    case Critical => 10
    case Warning => 2
    case Info => 0
  }

  function Max(a: nat, b: nat): nat {
    if a < b then b else a
  }

  function Endpoints(fs: seq<Finding>): set<string> {
    set i | 0 <= i < |fs| :: fs[i].path
  }

  /** The heaviest finding at an endpoint; 0 when there is none. */
  function Worst(fs: seq<Finding>, path: string): nat {
    if fs == [] then 0
    else
      var last := fs[|fs| - 1];
      Max(Worst(fs[..|fs| - 1], path), if last.path == path then Weight(last.severity) else 0)
  }

  ghost function Total(m: map<string, nat>): nat
    decreases |m|
  {
    if m == map[] then 0
    else
      var k :| k in m;
      assert (m - {k}).Keys == m.Keys - {k};
      m[k] + Total(m - {k})
  }

  function WorstMap(fs: seq<Finding>): map<string, nat> {
    map p | p in Endpoints(fs) :: Worst(fs, p)
  }

  predicate AnyCritical(fs: seq<Finding>) {
    exists i :: 0 <= i < |fs| && fs[i].severity.Critical?
  }

  ghost function Score(fs: seq<Finding>): int {
    var deductions := if Total(WorstMap(fs)) < 80 then Total(WorstMap(fs)) else 80;
    var raw := 100 - deductions;
    if AnyCritical(fs) && raw > 89 then 89 else raw
  }

  lemma {:induction false} TotalWithout(m: map<string, nat>, k: string)
    requires k in m
    ensures Total(m) == m[k] + Total(m - {k})
    decreases |m|
  {
    var c :| c in m && Total(m) == m[c] + Total(m - {c});
    if c != k {
      assert (m - {c}).Keys == m.Keys - {c};
      TotalWithout(m - {c}, k);
      assert (m - {k}).Keys == m.Keys - {k};
      TotalWithout(m - {k}, c);
      assert m - {c} - {k} == m - {k} - {c};
    }
  }

  /** Fewer endpoints with lighter findings weigh less. */
  lemma {:induction false} TotalGrows(a: map<string, nat>, b: map<string, nat>)
    requires forall k :: k in a ==> k in b && a[k] <= b[k]
    ensures Total(a) <= Total(b)
    decreases |a|
  {
    if a != map[] {
      var k :| k in a;
      TotalWithout(a, k);
      TotalWithout(b, k);
      assert (a - {k}).Keys == a.Keys - {k};
      TotalGrows(a - {k}, b - {k});
    }
  }

  lemma {:induction false} WorstBound(fs: seq<Finding>, i: nat, path: string)
    requires i < |fs| && fs[i].path == path
    ensures Weight(fs[i].severity) <= Worst(fs, path)
  {
    if i < |fs| - 1 {
      WorstBound(fs[..|fs| - 1], i, path);
    }
  }

  lemma {:induction false} WorstIsSome(fs: seq<Finding>, path: string)
    ensures Worst(fs, path) == 0
         || exists i :: 0 <= i < |fs| && fs[i].path == path && Weight(fs[i].severity) == Worst(fs, path)
  {
    if fs != [] {
      WorstIsSome(fs[..|fs| - 1], path);
    }
  }

  /** Every finding of `fs` is, as far as the score looks, one of `gs`. */
  ghost predicate Within(fs: seq<Finding>, gs: seq<Finding>) {
    forall i :: 0 <= i < |fs| ==> SameConcern(fs[i], gs)
  }

  predicate SameConcern(f: Finding, gs: seq<Finding>) {
    exists j :: 0 <= j < |gs| && gs[j].path == f.path && gs[j].severity == f.severity
  }

  /** More findings never raise the score. */
  lemma ScoreFalls(fs: seq<Finding>, gs: seq<Finding>)
    requires Within(fs, gs)
    ensures Score(gs) <= Score(fs)
  {
    forall p | p in WorstMap(fs) ensures p in WorstMap(gs) && WorstMap(fs)[p] <= WorstMap(gs)[p] {
      var i :| 0 <= i < |fs| && fs[i].path == p;
      assert SameConcern(fs[i], gs);
      WorstIsSome(fs, p);
      if Worst(fs, p) > 0 {
        var k :| 0 <= k < |fs| && fs[k].path == p && Weight(fs[k].severity) == Worst(fs, p);
        assert SameConcern(fs[k], gs);
        var j :| 0 <= j < |gs| && gs[j].path == fs[k].path && gs[j].severity == fs[k].severity;
        WorstBound(gs, j, p);
      }
    }
    TotalGrows(WorstMap(fs), WorstMap(gs));
    if AnyCritical(fs) {
      var i :| 0 <= i < |fs| && fs[i].severity.Critical?;
      assert SameConcern(fs[i], gs);
    }
  }

  /** The score is between 20 and 100, below 90 with a critical finding, and falls weakly when a
      finding is added. */
  lemma ScoreBounds(fs: seq<Finding>, more: Finding)
    ensures 20 <= Score(fs) <= 100
    ensures AnyCritical(fs) ==> Score(fs) <= 89
    ensures Score(fs + [more]) <= Score(fs)
  {
    forall i | 0 <= i < |fs| ensures SameConcern(fs[i], fs + [more]) {
      assert (fs + [more])[i] == fs[i];
    }
    ScoreFalls(fs, fs + [more]);
  }

  lemma EndpointsGrow(fs: seq<Finding>)
    requires fs != []
    ensures Endpoints(fs) == Endpoints(fs[..|fs| - 1]) + {fs[|fs| - 1].path}
  {
    var before := fs[..|fs| - 1];
    assert fs == before + [fs[|fs| - 1]];
    forall p | p in Endpoints(before) ensures p in Endpoints(fs) {
      var i :| 0 <= i < |before| && p == before[i].path;
      assert fs[i].path == p;
    }
  }

  lemma {:induction false} WorstElsewhere(fs: seq<Finding>, path: string)
    requires path !in Endpoints(fs)
    ensures Worst(fs, path) == 0
  {
    if fs != [] {
      EndpointsGrow(fs);
      WorstElsewhere(fs[..|fs| - 1], path);
    }
  }

  /** The first finding at an endpoint costs 10 points when it is critical, 2 when it is a warning, and nothing
      when it is a note, until 80 points are gone. */
  lemma NewEndpointCosts(fs: seq<Finding>, f: Finding)
    requires f.path !in Endpoints(fs)
    ensures Total(WorstMap(fs + [f])) == Total(WorstMap(fs))
              + if f.severity == Critical then 10 else if f.severity == Warning then 2 else 0
  {
    var m, n := WorstMap(fs), WorstMap(fs + [f]);
    WorstMapStep(fs, f);
    WorstElsewhere(fs, f.path);
    TotalWithout(n, f.path);
    assert n - {f.path} == m;
  }

  /** More at the same endpoint costs only what is heavier. */
  lemma SameEndpointCosts(fs: seq<Finding>, f: Finding)
    requires f.path in Endpoints(fs)
    ensures Worst(fs, f.path) >= 10 || f.severity == Info || (Worst(fs, f.path) >= 2 && f.severity == Warning) ==>
              Total(WorstMap(fs + [f])) == Total(WorstMap(fs))
  {
    WorstMapStep(fs, f);
    assert WorstMap(fs)[f.path] == Worst(fs, f.path);
    if Worst(fs, f.path) >= Weight(f.severity) {
      assert WorstMap(fs + [f]) == WorstMap(fs);
    }
  }

  /** The score: what is left of 100 points, at least 20, and at most 89 with a critical finding. */
  lemma ScoreIs(fs: seq<Finding>)
    ensures var left := 100 - Total(WorstMap(fs));
            && (AnyCritical(fs) && left > 89 ==> Score(fs) == 89)
            && (left < 20 ==> Score(fs) == 20)
            && (left >= 20 && (!AnyCritical(fs) || left <= 89) ==> Score(fs) == left)
    ensures Score([]) == 100
  {
  }

  /** One finding alone: a critical one leaves 89 points (90, but no more than 89), a warning 98, a note 100. */
  lemma SingleScore(f: Finding)
    ensures Score([f]) == if f.severity == Critical then 89 else if f.severity == Warning then 98 else 100
  {
    assert [] + [f] == [f];
    NewEndpointCosts([], f);
    assert WorstMap([]) == map[];
    assert f.severity == Critical ==> [f][0].severity.Critical?;
  }

  lemma WorstMapStep(fs: seq<Finding>, f: Finding)
    ensures var m := WorstMap(fs);
            WorstMap(fs + [f]) == m[f.path := Max(if f.path in m then m[f.path] else 0, Weight(f.severity))]
  {
    var gs := fs + [f];
    assert gs[..|gs| - 1] == fs;
    forall p ensures p in Endpoints(gs) <==> p in Endpoints(fs) || p == f.path {
      if p in Endpoints(fs) {
        var i :| 0 <= i < |fs| && fs[i].path == p;
        assert gs[i].path == p;
      }
      assert gs[|fs|].path == f.path;
    }
    if f.path !in Endpoints(fs) {
      WorstIsSome(fs, f.path);
    }
  }

  /** The first loop of `AuditReport.score`: one dictionary entry per endpoint. */
  method PerEndpoint(fs: seq<Finding>) returns (perEndpoint: map<string, nat>)
    ensures perEndpoint == WorstMap(fs)
  {
    perEndpoint := map[];
    var i := 0;
    while i < |fs|
      invariant i <= |fs| && perEndpoint == WorstMap(fs[..i])
    {
      WorstMapStep(fs[..i], fs[i]);
      assert fs[..i + 1] == fs[..i] + [fs[i]];
      var before := if fs[i].path in perEndpoint then perEndpoint[fs[i].path] else 0;
      perEndpoint := perEndpoint[fs[i].path := Max(before, Weight(fs[i].severity))];
      i := i + 1;
    }
    assert fs[..i] == fs;
  }

  /** `sum(per_endpoint.values())` */
  method SumOfValues(m: map<string, nat>) returns (sum: nat)
    ensures sum == Total(m)
  {
    sum := 0;
    var todo := m;
    while todo != map[]
      invariant sum + Total(todo) == Total(m)
      decreases |todo|
    {
      var k :| k in todo;
      TotalWithout(todo, k);
      assert (todo - {k}).Keys == todo.Keys - {k};
      sum := sum + todo[k];
      todo := todo - {k};
    }
  }

  /** `AuditReport.score` */
  method ComputeScore(fs: seq<Finding>) returns (score: int)
    ensures score == Score(fs)
  {
    var perEndpoint := PerEndpoint(fs);
    var sum := SumOfValues(perEndpoint);
    var deductions := if sum < 80 then sum else 80;
    var raw := if 100 - deductions > 0 then 100 - deductions else 0;
    if AnyCritical(fs) {
      raw := if raw < 89 then raw else 89;
    }
    score := if raw > 100 then 100 else raw;
  }

  // ---------------------------------------------------------------- grouping

  /** A finding without affected paths affects its own endpoint. */
  function Prepared(f: Finding): Finding {
    if f.paths == [] && f.path != "" then f.(paths := [f.path]) else f
  }

  function Ungrouped(fs: seq<Finding>): nat {
    if fs == [] then 0 else Ungrouped(fs[..|fs| - 1]) + if fs[|fs| - 1].key == "" then 1 else 0
  }

  /** The key the i-th finding is grouped under. */
  function KeyAt(fs: seq<Finding>, i: nat): string
    requires i < |fs|
  {
    if fs[i].key != "" then fs[i].key else "ungrouped:" + Decimal(Ungrouped(fs[..i]))
  }

  /** Appends what is not there yet, in order. */
  function AddMissing(xs: seq<string>, ys: seq<string>): (r: seq<string>)
    ensures forall x :: x in r <==> x in xs || x in ys
    ensures (forall y :: y in ys ==> y in xs) ==> r == xs
    ensures xs <= r
    decreases |ys|
  {
    if ys == [] then xs
    else AddMissing(if ys[0] in xs then xs else xs + [ys[0]], ys[1..])
  }

  function Merge(a: Finding, b: Finding): Finding {
    a.(paths := AddMissing(a.paths, b.paths), methods := AddMissing(a.methods, b.methods))
  }

  /** The dictionary: keys in the order they were first seen, and the finding kept for each. */
  datatype Groups = Groups(keys: seq<string>, kept: seq<Finding>)

  function Position(keys: seq<string>, key: string): (i: nat)
    ensures i <= |keys| && (i < |keys| ==> keys[i] == key) && key !in keys[..i]
    ensures key in keys <==> i < |keys|
  {
    if keys == [] || keys[0] == key then 0 else 1 + Position(keys[1..], key)
  }

  function Insert(g: Groups, key: string, f: Finding): Groups
    requires |g.keys| == |g.kept|
  {
    var i := Position(g.keys, key);
    if i == |g.keys| then Groups(g.keys + [key], g.kept + [f])
    else g.(kept := g.kept[i := Merge(g.kept[i], f)])
  }

  function GroupsOf(fs: seq<Finding>): (g: Groups)
    ensures |g.keys| == |g.kept|
  {
    if fs == [] then Groups([], [])
    else
      var last := |fs| - 1;
      Insert(GroupsOf(fs[..last]), KeyAt(fs, last), Prepared(fs[last]))
  }

  /** `_group_logically_identical_findings` */
  function Grouped(fs: seq<Finding>): seq<Finding> {
    GroupsOf(fs).kept
  }

  // ---------------------------------------------------------------- what grouping keeps

  /** Group `k` stands for the findings with its key: it is the first of them, and affects exactly the paths and
      the methods they affect together. */
  ghost predicate GroupOk(fs: seq<Finding>, g: Groups, k: nat)
    requires |g.keys| == |g.kept| && k < |g.keys|
  {
    && (exists i :: 0 <= i < |fs| && KeyAt(fs, i) == g.keys[k] && Leads(fs, i, g.kept[k]))
    && (forall p :: p in g.kept[k].paths <==> AffectedBy(fs, g.keys[k], p))
    && (forall m :: m in g.kept[k].methods <==> MethodBy(fs, g.keys[k], m))
  }

  predicate MethodBy(fs: seq<Finding>, key: string, m: string) {
    exists i :: 0 <= i < |fs| && KeyAt(fs, i) == key && m in fs[i].methods
  }

  lemma MethodByStep(fs: seq<Finding>, key: string, m: string)
    requires fs != []
    ensures MethodBy(fs, key, m) <==>
            MethodBy(fs[..|fs| - 1], key, m) || (KeyAt(fs, |fs| - 1) == key && m in fs[|fs| - 1].methods)
  {
    var last := |fs| - 1;
    if MethodBy(fs, key, m) {
      var i :| 0 <= i < |fs| && KeyAt(fs, i) == key && m in fs[i].methods;
      if i < last {
        KeysStay(fs, i);
        assert KeyAt(fs[..last], i) == key && m in fs[..last][i].methods;
      }
    }
    if MethodBy(fs[..last], key, m) {
      var i :| 0 <= i < last && KeyAt(fs[..last], i) == key && m in fs[..last][i].methods;
      KeysStay(fs, i);
      assert KeyAt(fs, i) == key && m in fs[i].methods;
    }
  }

  predicate AffectedBy(fs: seq<Finding>, key: string, p: string) {
    exists i :: 0 <= i < |fs| && KeyAt(fs, i) == key && p in Prepared(fs[i]).paths
  }

  /** The i-th finding is the first with its key, and `f` is that finding but for its lists. */
  predicate Leads(fs: seq<Finding>, i: nat, f: Finding)
    requires i < |fs|
  {
    && f == fs[i].(paths := f.paths, methods := f.methods)
    && forall j :: 0 <= j < i ==> KeyAt(fs, j) != KeyAt(fs, i)
  }

  predicate Distinct(keys: seq<string>) {
    forall i, j :: 0 <= i < j < |keys| ==> keys[i] != keys[j]
  }

  /** The distinct keys, in the order they are first seen. */
  function FirstSeen(fs: seq<Finding>): seq<string> {
    if fs == [] then []
    else
      var before, key := FirstSeen(fs[..|fs| - 1]), KeyAt(fs, |fs| - 1);
      if key in before then before else before + [key]
  }

  lemma KeysStay(fs: seq<Finding>, i: nat)
    requires i + 1 < |fs|
    ensures KeyAt(fs[..|fs| - 1], i) == KeyAt(fs, i)
  {
    assert fs[..|fs| - 1][..i] == fs[..i];
  }

  /** One finding per key, in first-seen order. */
  lemma {:induction false} OnePerKey(fs: seq<Finding>)
    ensures GroupsOf(fs).keys == FirstSeen(fs) && Distinct(FirstSeen(fs))
  {
    if fs != [] {
      OnePerKey(fs[..|fs| - 1]);
    }
  }

  lemma {:induction false} GroupsAreOk(fs: seq<Finding>, k: nat)
    requires k < |GroupsOf(fs).keys|
    ensures GroupOk(fs, GroupsOf(fs), k)
  {
    var last := |fs| - 1;
    var before, f, key := GroupsOf(fs[..last]), Prepared(fs[last]), KeyAt(fs, last);
    var at := Position(before.keys, key);
    OnePerKey(fs[..last]);
    if k < |before.keys| {
      GroupsAreOk(fs[..last], k);
      OldGroup(fs, k);
    } else {
      NewGroup(fs);
    }
  }

  lemma OldGroup(fs: seq<Finding>, k: nat)
    requires fs != [] && k < |GroupsOf(fs[..|fs| - 1]).keys| && Distinct(GroupsOf(fs[..|fs| - 1]).keys)
    requires GroupOk(fs[..|fs| - 1], GroupsOf(fs[..|fs| - 1]), k)
    ensures GroupOk(fs, GroupsOf(fs), k)
  {
    var last := |fs| - 1;
    var rest, g, h := fs[..last], GroupsOf(fs[..last]), GroupsOf(fs);
    var i :| 0 <= i < last && KeyAt(rest, i) == g.keys[k] && Leads(rest, i, g.kept[k]);
    KeysStay(fs, i);
    forall j | 0 <= j < i ensures KeyAt(fs, j) != KeyAt(fs, i) {
      KeysStay(fs, j);
    }
    assert h.keys[k] == g.keys[k];
    assert Leads(fs, i, h.kept[k]);
    forall p ensures p in h.kept[k].paths <==> AffectedBy(fs, h.keys[k], p) {
      AffectedByStep(fs, h.keys[k], p);
    }
    forall m ensures m in h.kept[k].methods <==> MethodBy(fs, h.keys[k], m) {
      MethodByStep(fs, h.keys[k], m);
    }
  }

  lemma AffectedByStep(fs: seq<Finding>, key: string, p: string)
    requires fs != []
    ensures AffectedBy(fs, key, p) <==>
            AffectedBy(fs[..|fs| - 1], key, p) || (KeyAt(fs, |fs| - 1) == key && p in Prepared(fs[|fs| - 1]).paths)
  {
    var last := |fs| - 1;
    if AffectedBy(fs, key, p) {
      var i :| 0 <= i < |fs| && KeyAt(fs, i) == key && p in Prepared(fs[i]).paths;
      if i < last {
        KeysStay(fs, i);
        assert KeyAt(fs[..last], i) == key && p in Prepared(fs[..last][i]).paths;
      }
    }
    if AffectedBy(fs[..last], key, p) {
      var i :| 0 <= i < last && KeyAt(fs[..last], i) == key && p in Prepared(fs[..last][i]).paths;
      KeysStay(fs, i);
      assert KeyAt(fs, i) == key && p in Prepared(fs[i]).paths;
    }
  }

  lemma NewGroup(fs: seq<Finding>)
    requires fs != [] && KeyAt(fs, |fs| - 1) !in GroupsOf(fs[..|fs| - 1]).keys
    requires GroupsOf(fs[..|fs| - 1]).keys == FirstSeen(fs[..|fs| - 1])
    ensures GroupOk(fs, GroupsOf(fs), |GroupsOf(fs[..|fs| - 1]).keys|)
  {
    var last := |fs| - 1;
    var h, key := GroupsOf(fs), KeyAt(fs, last);
    var k := |GroupsOf(fs[..last]).keys|;
    forall j | 0 <= j < last ensures KeyAt(fs, j) != key {
      KeysStay(fs, j);
      SeenKey(fs[..last], j);
    }
    assert Leads(fs, last, h.kept[k]);
    assert h.kept[k] == Prepared(fs[last]);
    forall p ensures p in h.kept[k].paths <==> AffectedBy(fs, key, p) {
      AffectedOnlyNow(fs, p);
    }
    forall m ensures m in h.kept[k].methods <==> MethodBy(fs, key, m) {
      AffectedOnlyNow(fs, m);
    }
  }

  lemma AffectedOnlyNow(fs: seq<Finding>, p: string)
    requires fs != [] && forall j :: 0 <= j < |fs| - 1 ==> KeyAt(fs, j) != KeyAt(fs, |fs| - 1)
    ensures var f := fs[|fs| - 1];
            && (AffectedBy(fs, KeyAt(fs, |fs| - 1), p) <==> p in Prepared(f).paths)
            && (MethodBy(fs, KeyAt(fs, |fs| - 1), p) <==> p in f.methods)
  {
    var key := KeyAt(fs, |fs| - 1);
    AffectedByStep(fs, key, p);
    MethodByStep(fs, key, p);
    NotAffectedBefore(fs, key, p);
  }

  lemma NotAffectedBefore(fs: seq<Finding>, key: string, p: string)
    requires fs != [] && forall j :: 0 <= j < |fs| - 1 ==> KeyAt(fs, j) != key
    ensures !AffectedBy(fs[..|fs| - 1], key, p) && !MethodBy(fs[..|fs| - 1], key, p)
  {
    var rest := fs[..|fs| - 1];
    forall i | 0 <= i < |rest| ensures KeyAt(rest, i) != key {
      KeysStay(fs, i);
    }
  }

  lemma {:induction false} SeenKey(fs: seq<Finding>, i: nat)
    requires i < |fs|
    ensures KeyAt(fs, i) in FirstSeen(fs)
  {
    if i < |fs| - 1 {
      KeysStay(fs, i);
      SeenKey(fs[..|fs| - 1], i);
    }
  }

  /** Grouping never lowers the score: what it keeps was there before. */
  lemma GroupingKeepsScore(fs: seq<Finding>)
    ensures Score(fs) <= Score(Grouped(fs))
  {
    var g := GroupsOf(fs);
    forall k | 0 <= k < |g.kept| ensures SameConcern(g.kept[k], fs) {
      GroupsAreOk(fs, k);
      var i :| 0 <= i < |fs| && KeyAt(fs, i) == g.keys[k] && Leads(fs, i, g.kept[k]);
    }
    ScoreFalls(Grouped(fs), fs);
  }

  // ---------------------------------------------------------------- the findings of one endpoint

  /** `findings_for_endpoint` reports the finding for `p`. */
  predicate ReportedFor(f: Finding, p: string) {
    p in (if f.paths != [] then f.paths else [f.path])
  }

  predicate RuleReported(fs: seq<Finding>, rule: string, p: string) {
    exists i :: 0 <= i < |fs| && fs[i].rule == rule && ReportedFor(fs[i], p)
  }

  /** A key belongs to one rule, as `_finding_logical_key` makes it. */
  ghost predicate KeysKnowRules(fs: seq<Finding>) {
    forall i, j :: 0 <= i < |fs| && 0 <= j < |fs| && KeyAt(fs, i) == KeyAt(fs, j) ==> fs[i].rule == fs[j].rule
  }

  /** The finding reports `p` also for the group it is in: it affects `p`; or `p` is the empty path, which it
      has itself, and nothing in its group affects any path. */
  ghost predicate ReportStays(fs: seq<Finding>, i: nat, p: string)
    requires i < |fs|
  {
    p in Prepared(fs[i]).paths || (p == fs[i].path == "" && forall q :: !AffectedBy(fs, KeyAt(fs, i), q))
  }

  /** The i-th finding's report for `p` stays, and the group's first finding has this rule. */
  ghost predicate ReportedAs(fs: seq<Finding>, i: nat, lead: nat, rule: string, p: string)
    requires i < |fs| && lead < |fs|
  {
    && KeyAt(fs, lead) == KeyAt(fs, i) && fs[lead].rule == rule && ReportStays(fs, i, p)
    && forall j :: 0 <= j < lead ==> KeyAt(fs, j) != KeyAt(fs, lead)
  }

  lemma ReportedAfter(fs: seq<Finding>, i: nat, lead: nat, rule: string, p: string)
    requires i < |fs| && lead < |fs| && ReportedAs(fs, i, lead, rule, p)
    ensures RuleReported(Grouped(fs), rule, p)
  {
    var g := GroupsOf(fs);
    OnePerKey(fs);
    SeenKey(fs, i);
    var k := Position(g.keys, KeyAt(fs, i));
    GroupsAreOk(fs, k);
    var first :| 0 <= first < |fs| && KeyAt(fs, first) == g.keys[k] && Leads(fs, first, g.kept[k]);
    assert first == lead;
    if p in Prepared(fs[i]).paths {
      assert AffectedBy(fs, g.keys[k], p);
    } else {
      assert forall q :: q in Prepared(fs[lead]).paths ==> AffectedBy(fs, g.keys[k], q);
      EmptyUnlessSome(Prepared(fs[lead]).paths);
      EmptyUnlessSome(g.kept[k].paths);
    }
    assert ReportedFor(g.kept[k], p);
  }

  lemma EmptyUnlessSome(paths: seq<string>)
    ensures paths == [] || paths[0] in paths
  {
  }

  lemma ReportedBefore(fs: seq<Finding>, k: nat, p: string) returns (i: nat, lead: nat)
    requires k < |Grouped(fs)| && ReportedFor(Grouped(fs)[k], p)
    ensures i < |fs| && lead < |fs| && ReportedAs(fs, i, lead, Grouped(fs)[k].rule, p)
  {
    var g := GroupsOf(fs);
    GroupsAreOk(fs, k);
    lead :| 0 <= lead < |fs| && KeyAt(fs, lead) == g.keys[k] && Leads(fs, lead, g.kept[k]);
    if p in g.kept[k].paths {
      i :| 0 <= i < |fs| && KeyAt(fs, i) == g.keys[k] && p in Prepared(fs[i]).paths;
    } else {
      i := lead;
      assert forall q :: q in Prepared(fs[lead]).paths ==> AffectedBy(fs, g.keys[k], q);
      EmptyUnlessSome(Prepared(fs[lead]).paths);
    }
  }

  /** What is reported after grouping, for any findings and any path: exactly the reports that stay, each
      under the rule of its group's first finding. */
  lemma ReportsAfterGrouping(fs: seq<Finding>, rule: string, p: string)
    ensures RuleReported(Grouped(fs), rule, p)
       <==> exists i, lead :: 0 <= i < |fs| && 0 <= lead < |fs| && ReportedAs(fs, i, lead, rule, p)
  {
    if RuleReported(Grouped(fs), rule, p) {
      var k :| 0 <= k < |Grouped(fs)| && Grouped(fs)[k].rule == rule && ReportedFor(Grouped(fs)[k], p);
      var i, lead := ReportedBefore(fs, k, p);
    }
    if i, lead :| 0 <= i < |fs| && 0 <= lead < |fs| && ReportedAs(fs, i, lead, rule, p) {
      ReportedAfter(fs, i, lead, rule, p);
    }
  }

  lemma {:induction false} FirstOf(fs: seq<Finding>, i: nat) returns (lead: nat)
    requires i < |fs|
    ensures lead <= i && KeyAt(fs, lead) == KeyAt(fs, i)
    ensures forall j :: 0 <= j < lead ==> KeyAt(fs, j) != KeyAt(fs, lead)
  {
    if j :| 0 <= j < i && KeyAt(fs, j) == KeyAt(fs, i) {
      lead := FirstOf(fs, j);
    } else {
      lead := i;
    }
  }

  /** When a key belongs to one rule, the same rules are reported for a path before and after grouping, if
      and only if some report of each rule for it stays. */
  lemma SameRulesReported(fs: seq<Finding>, rule: string, p: string)
    requires KeysKnowRules(fs)
    ensures RuleReported(Grouped(fs), rule, p) ==> RuleReported(fs, rule, p)
    ensures RuleReported(Grouped(fs), rule, p)
       <==> exists i :: 0 <= i < |fs| && fs[i].rule == rule && ReportStays(fs, i, p)
    ensures p != "" ==> (RuleReported(fs, rule, p) <==> RuleReported(Grouped(fs), rule, p))
  {
    ReportsAfterGrouping(fs, rule, p);
    if i, lead :| 0 <= i < |fs| && 0 <= lead < |fs| && ReportedAs(fs, i, lead, rule, p) {
      assert fs[i].rule == rule && ReportStays(fs, i, p);
      StaysIsReported(fs, i, p);
    }
    if i :| 0 <= i < |fs| && fs[i].rule == rule && ReportStays(fs, i, p) {
      var lead := FirstOf(fs, i);
      assert ReportedAs(fs, i, lead, rule, p);
    }
    if i :| p != "" && 0 <= i < |fs| && fs[i].rule == rule && ReportedFor(fs[i], p) {
      assert ReportStays(fs, i, p);
    }
  }

  lemma StaysIsReported(fs: seq<Finding>, i: nat, p: string)
    requires i < |fs| && ReportStays(fs, i, p)
    ensures ReportedFor(fs[i], p)
  {
    if p !in Prepared(fs[i]).paths {
      assert forall q :: q in Prepared(fs[i]).paths ==> AffectedBy(fs, KeyAt(fs, i), q);
      EmptyUnlessSome(fs[i].paths);
    }
  }

  /** The empty path is the exception: a finding without any path is reported for it until a grouped
      one brings it paths. */
  lemma EmptyPathIsLost(a: Finding, b: Finding)
    requires a == Finding("R", Info, "", "k", [], []) && b == Finding("R", Info, "/a", "k", ["/a"], [])
    ensures KeysKnowRules([a, b]) && RuleReported([a, b], "R", "") && !RuleReported(Grouped([a, b]), "R", "")
  {
    assert ReportedFor([a, b][0], "");
    GroupTwo(a, b);
    assert "/a" in AddMissing(a.paths, b.paths);
    assert "" !in AddMissing(a.paths, b.paths);
  }

  lemma GroupTwo(a: Finding, b: Finding)
    requires a.key == b.key != ""
    ensures Grouped([a, b]) == [Merge(Prepared(a), Prepared(b))]
  {
    assert [a, b][..1] == [a] && [a][..0] == [];
    assert GroupsOf([a]) == Groups([a.key], [Prepared(a)]);
  }

  // ---------------------------------------------------------------- grouping again

  /** A finding carries a key that is made up for one without a key. */
  ghost predicate Imitates(fs: seq<Finding>) {
    exists k, n :: 0 <= k < |fs| && Imitation(fs, k, n)
  }

  predicate Imitation(fs: seq<Finding>, k: nat, n: nat)
    requires k < |fs|
  {
    n < Ungrouped(fs) && fs[k].key == "ungrouped:" + Decimal(n)
  }

  lemma MadeUpKeysDiffer(m: nat, n: nat)
    requires "ungrouped:" + Decimal(m) == "ungrouped:" + Decimal(n)
    ensures m == n
  {
    assert ("ungrouped:" + Decimal(m))[10..] == Decimal(m) && ("ungrouped:" + Decimal(n))[10..] == Decimal(n);
    DecimalIsNumber(m);
    DecimalIsNumber(n);
  }

  lemma {:induction false} UngroupedGrows(fs: seq<Finding>, i: nat, j: nat)
    requires i <= j <= |fs|
    ensures Ungrouped(fs[..i]) <= Ungrouped(fs[..j])
    ensures i < j && fs[i].key == "" ==> Ungrouped(fs[..i]) < Ungrouped(fs[..j])
  {
    if i < j {
      UngroupedGrows(fs, i, j - 1);
      assert fs[..j][..j - 1] == fs[..j - 1];
    }
  }

  /** The finding that is given the n-th made-up key. */
  lemma {:induction false} GivenKey(fs: seq<Finding>, n: nat) returns (i: nat)
    requires n < Ungrouped(fs)
    ensures i < |fs| && fs[i].key == "" && Ungrouped(fs[..i]) == n
  {
    var last := |fs| - 1;
    if n < Ungrouped(fs[..last]) {
      i := GivenKey(fs[..last], n);
      assert fs[..last][..i] == fs[..i];
    } else {
      i := last;
    }
  }

  lemma {:induction false} KeptArePrepared(fs: seq<Finding>)
    ensures AllPrepared(Grouped(fs))
  {
    if fs != [] {
      var last := |fs| - 1;
      var g, f := GroupsOf(fs[..last]), Prepared(fs[last]);
      KeptArePrepared(fs[..last]);
      var i := Position(g.keys, KeyAt(fs, last));
      if i < |g.keys| {
        MergeIsPrepared(g.kept[i], f);
      }
    }
  }

  predicate NamedApart(fs: seq<Finding>) {
    forall k, l :: 0 <= k < l < |fs| && fs[k].key != "" ==> fs[k].key != fs[l].key
  }

  lemma KeptAreNamedApart(fs: seq<Finding>)
    ensures NamedApart(Grouped(fs))
  {
    var g := GroupsOf(fs);
    OnePerKey(fs);
    forall k | 0 <= k < |g.kept| && g.kept[k].key != "" ensures g.kept[k].key == g.keys[k] {
      GroupsAreOk(fs, k);
    }
  }

  lemma KeysApart(fs: seq<Finding>)
    requires NamedApart(fs)
    ensures Distinct(Keys(fs)) <==> !Imitates(fs)
  {
    if Imitates(fs) {
      var k, n :| 0 <= k < |fs| && Imitation(fs, k, n);
      var i := GivenKey(fs, n);
      assert KeyAt(fs, i) == KeyAt(fs, k) && i != k;
      assert Keys(fs)[i] == Keys(fs)[k];
    } else {
      forall i, j | 0 <= i < j < |fs| ensures KeyAt(fs, i) != KeyAt(fs, j) {
        TwoKeys(fs, i, j);
      }
    }
  }

  lemma TwoKeys(fs: seq<Finding>, i: nat, j: nat)
    requires NamedApart(fs) && !Imitates(fs) && i < j < |fs|
    ensures KeyAt(fs, i) != KeyAt(fs, j)
  {
    assert fs[..|fs|] == fs;
    UngroupedGrows(fs, i, |fs|);
    UngroupedGrows(fs, j, |fs|);
    UngroupedGrows(fs, i, j);
    var m, n := Ungrouped(fs[..i]), Ungrouped(fs[..j]);
    if fs[i].key == "" && fs[j].key == "" {
      if "ungrouped:" + Decimal(m) == "ungrouped:" + Decimal(n) { MadeUpKeysDiffer(m, n); }
    } else if fs[i].key == "" {
      assert !Imitation(fs, j, m);
    } else if fs[j].key == "" {
      assert !Imitation(fs, i, n);
    }
  }

  lemma MergeIsPrepared(a: Finding, b: Finding)
    requires Prepared(a) == a
    ensures Prepared(Merge(a, b)) == Merge(a, b)
  {
  }

  function Keys(fs: seq<Finding>): seq<string> {
    seq(|fs|, i requires 0 <= i < |fs| => KeyAt(fs, i))
  }

  lemma KeysPrefix(fs: seq<Finding>)
    requires fs != []
    ensures Keys(fs) == Keys(fs[..|fs| - 1]) + [KeyAt(fs, |fs| - 1)]
  {
    forall i | 0 <= i < |fs| - 1 ensures KeyAt(fs[..|fs| - 1], i) == KeyAt(fs, i) {
      KeysStay(fs, i);
    }
  }

  lemma DistinctPrefix(before: seq<string>, last: string)
    requires Distinct(before + [last])
    ensures Distinct(before) && last !in before
  {
    var all := before + [last];
    forall i | 0 <= i < |before| ensures before[i] != last {
      assert all[i] != all[|before|];
    }
    forall i, j | 0 <= i < j < |before| ensures before[i] != before[j] {
      assert all[i] != all[j];
    }
  }

  predicate AllPrepared(fs: seq<Finding>) {
    forall i :: 0 <= i < |fs| ==> Prepared(fs[i]) == fs[i]
  }

  lemma {:induction false} SettledStays(fs: seq<Finding>)
    requires Distinct(Keys(fs)) && AllPrepared(fs)
    ensures GroupsOf(fs) == Groups(Keys(fs), fs)
  {
    if fs == [] {
      assert Keys(fs) == [];
    } else {
      var last := |fs| - 1;
      SettledPrefix(fs);
      SettledStays(fs[..last]);
      InsertNew(Keys(fs[..last]), fs[..last], KeyAt(fs, last), fs[last]);
    }
  }

  lemma SettledPrefix(fs: seq<Finding>)
    requires Distinct(Keys(fs)) && AllPrepared(fs) && fs != []
    ensures var last := |fs| - 1;
            && Distinct(Keys(fs[..last])) && AllPrepared(fs[..last]) && Prepared(fs[last]) == fs[last]
            && KeyAt(fs, last) !in Keys(fs[..last])
            && Keys(fs) == Keys(fs[..last]) + [KeyAt(fs, last)] && fs == fs[..last] + [fs[last]]
  {
    KeysPrefix(fs);
    DistinctPrefix(Keys(fs[..|fs| - 1]), KeyAt(fs, |fs| - 1));
  }

  lemma InsertNew(keys: seq<string>, kept: seq<Finding>, key: string, f: Finding)
    requires |keys| == |kept| && key !in keys
    ensures Insert(Groups(keys, kept), key, f) == Groups(keys + [key], kept + [f])
  {
  }

  lemma {:induction false} FirstSeenIsShorter(fs: seq<Finding>)
    ensures |FirstSeen(fs)| <= |fs|
    ensures |FirstSeen(fs)| == |fs| ==> FirstSeen(fs) == Keys(fs)
  {
    if fs == [] {
      assert Keys(fs) == [];
    } else {
      FirstSeenIsShorter(fs[..|fs| - 1]);
      KeysPrefix(fs);
    }
  }

  /** Grouping twice is grouping once, exactly when no kept finding carries a key that the second pass makes
      up for another one. */
  lemma GroupingIsIdempotent(fs: seq<Finding>)
    ensures Grouped(Grouped(fs)) == Grouped(fs) <==> !Imitates(Grouped(fs))
  {
    var kept := Grouped(fs);
    KeptAreNamedApart(fs);
    KeysApart(kept);
    if Distinct(Keys(kept)) {
      KeptArePrepared(fs);
      SettledStays(kept);
    }
    if Grouped(kept) == kept {
      OnePerKey(kept);
      FirstSeenIsShorter(kept);
    }
  }

  /** No logical key looks like a made-up one. */
  ghost predicate NoClash(fs: seq<Finding>) {
    forall i :: 0 <= i < |fs| ==> !("ungrouped:" <= fs[i].key)
  }

  lemma NoClashIsEnough(fs: seq<Finding>)
    requires NoClash(fs)
    ensures !Imitates(Grouped(fs))
  {
    var g := GroupsOf(fs);
    forall k, n | 0 <= k < |g.kept| ensures !Imitation(g.kept, k, n) {
      GroupsAreOk(fs, k);
      assert "ungrouped:" <= "ungrouped:" + Decimal(n);
    }
  }

  /** Without that condition it is not: the second pass makes up the key that a logical key imitates. */
  lemma ClashIsNotIdempotent(a: Finding, b: Finding, c: Finding)
    requires a == Finding("R", Info, "/a", "ungrouped:0", ["/a"], [])
    requires b == Finding("S", Info, "/b", "", ["/b"], []) && c == Finding("T", Info, "/c", "", ["/c"], [])
    ensures |Grouped([a, b, c])| == 2 && |Grouped(Grouped([a, b, c]))| == 1
  {
    GroupPair(a, b);
    GroupThird([a, b], c);
    ClashAgain(a, b, c);
  }

  lemma ClashAgain(a: Finding, b: Finding, c: Finding)
    requires a.key == "ungrouped:0" && a.paths != [] && c.key == "" && c.paths != []
    requires Grouped([a, b]) == [Merge(a, b)] && Grouped([a, b] + [c]) == Grouped([a, b]) + [c]
    ensures Grouped([a, b, c]) == [Merge(a, b), c] && |Grouped([Merge(a, b), c])| == 1
  {
    assert [a, b] + [c] == [a, b, c];
    assert [Merge(a, b)] + [c] == [Merge(a, b), c];
    assert a.paths <= Merge(a, b).paths;
    GroupPair(Merge(a, b), c);
  }

  /** A finding that imitates a made-up key swallows the first finding without a key. */
  lemma GroupPair(a: Finding, b: Finding)
    requires a.key == "ungrouped:0" && b.key == "" && a.paths != [] && b.paths != []
    ensures GroupsOf([a, b]) == Groups(["ungrouped:0"], [Merge(a, b)]) && Ungrouped([a, b]) == 1
  {
    assert [a, b][..1] == [a] && [a][..0] == [];
    assert Ungrouped([a]) == 0;
    assert Decimal(0) == "0";
    assert "ungrouped:" + Decimal(0) == "ungrouped:0";
    assert KeyAt([a, b], 1) == "ungrouped:0";
    assert GroupsOf([a]) == Groups(["ungrouped:0"], [a]);
  }

  lemma GroupThird(two: seq<Finding>, c: Finding)
    requires |two| == 2 && Ungrouped(two) == 1 && c.key == "" && c.paths != []
    requires GroupsOf(two).keys == ["ungrouped:0"]
    ensures Grouped(two + [c]) == Grouped(two) + [c]
  {
    assert (two + [c])[..2] == two;
    assert Decimal(1) == "1";
    var key := "ungrouped:" + Decimal(1);
    assert key[10] == '1' && "ungrouped:0"[10] == '0';
    assert key != "ungrouped:0";
    InsertNew(GroupsOf(two).keys, Grouped(two), key, c);
  }

  /** `_finding_logical_key`: the rule, and what else identifies the concern. */
  function LogicalKey(rule: string, view: string, action: string, serializer: string): string {
    rule + "|" + view + "|" + action + "|" + serializer
  }

  function BarAt(s: string): nat {
    if s == "" || s[0] == '|' then 0 else 1 + BarAt(s[1..])
  }

  lemma {:induction false} BarIsAt(a: string, x: string)
    requires '|' !in a
    ensures BarAt(a + ("|" + x)) == |a|
  {
    if a == "" {
      assert a + ("|" + x) == "|" + x;
    } else {
      assert (a + ("|" + x))[1..] == a[1..] + ("|" + x);
      BarIsAt(a[1..], x);
    }
  }

  lemma BarSplits(a: string, b: string, x: string, y: string)
    requires '|' !in a && '|' !in b && a + ("|" + x) == b + ("|" + y)
    ensures a == b && x == y
  {
    var text := a + ("|" + x);
    BarIsAt(a, x);
    BarIsAt(b, y);
    assert text[..|a|] == a && text[..|b|] == b && text[|a| + 1..] == x && text[|b| + 1..] == y;
  }

  lemma KeyIs(rule: string, view: string, action: string, serializer: string)
    ensures LogicalKey(rule, view, action, serializer) == rule + ("|" + (view + ("|" + (action + ("|" + serializer)))))
  {
  }

  /** Findings with the same key are of the same rule, view, action and serializer (class and action names hold no
      bar). */
  lemma KeysTellApart(r1: string, v1: string, a1: string, s1: string, r2: string, v2: string, a2: string, s2: string)
    requires '|' !in r1 && '|' !in v1 && '|' !in a1 && '|' !in r2 && '|' !in v2 && '|' !in a2
    requires LogicalKey(r1, v1, a1, s1) == LogicalKey(r2, v2, a2, s2)
    ensures r1 == r2 && v1 == v2 && a1 == a2 && s1 == s2
  {
    KeyIs(r1, v1, a1, s1);
    KeyIs(r2, v2, a2, s2);
    BarSplits(r1, r2, v1 + ("|" + (a1 + ("|" + s1))), v2 + ("|" + (a2 + ("|" + s2))));
    BarSplits(v1, v2, a1 + ("|" + s1), a2 + ("|" + s2));
    BarSplits(a1, a2, s1, s2);
  }

  /** Rule ids are upper-case words: they hold no bar, and do not begin as a made-up key does. */
  predicate IsRuleId(rule: string) {
    '|' !in rule && rule != "" && rule[0] != 'u'
  }

  lemma UpperCaseWordsAreRuleIds(rule: string)
    requires rule != "" && forall i :: 0 <= i < |rule| ==> 'A' <= rule[i] <= 'Z' || rule[i] == '_'
    ensures IsRuleId(rule)
  {
  }

  /** What `run_audit` groups: findings whose logical keys were computed from them, and which affect the
      endpoint they were found at. */
  ghost predicate Audited(fs: seq<Finding>) {
    forall i :: 0 <= i < |fs| ==> IsRuleId(fs[i].rule) && HasLogicalKey(fs[i]) && fs[i].paths != []
  }

  predicate HasLogicalKey(f: Finding) {
    |f.rule| < |f.key| && f.key[..|f.rule|] == f.rule && f.key[|f.rule|] == '|'
  }

  lemma LogicalKeyHasRule(f: Finding, view: string, action: string, serializer: string)
    requires f.key == LogicalKey(f.rule, view, action, serializer)
    ensures HasLogicalKey(f)
  {
  }

  lemma RuleFromKey(f: Finding, g: Finding)
    requires IsRuleId(f.rule) && IsRuleId(g.rule) && HasLogicalKey(f) && HasLogicalKey(g) && f.key == g.key
    ensures f.rule == g.rule
  {
    assert forall i :: 0 <= i < |f.rule| ==> f.key[i] == f.rule[i] != '|';
    assert forall i :: 0 <= i < |g.rule| ==> g.key[i] == g.rule[i] != '|';
    assert |f.rule| == |g.rule|;
  }

  /** So in an audit all of the above holds: grouping is idempotent and changes no endpoint's rules. */
  lemma AuditGroups(fs: seq<Finding>, rule: string, p: string)
    requires Audited(fs)
    ensures Grouped(Grouped(fs)) == Grouped(fs)
    ensures RuleReported(fs, rule, p) <==> RuleReported(Grouped(fs), rule, p)
  {
    forall i | 0 <= i < |fs| ensures !("ungrouped:" <= fs[i].key) && fs[i].key != "" {
      assert fs[i].key[0] == fs[i].rule[0];
      assert "ungrouped:"[0] == 'u';
    }
    NoClashIsEnough(fs);
    GroupingIsIdempotent(fs);
    forall i, j | 0 <= i < |fs| && 0 <= j < |fs| && KeyAt(fs, i) == KeyAt(fs, j) ensures fs[i].rule == fs[j].rule {
      RuleFromKey(fs[i], fs[j]);
    }
    SameRulesReported(fs, rule, p);
    if i :| 0 <= i < |fs| && fs[i].rule == rule && ReportedFor(fs[i], p) {
      assert ReportStays(fs, i, p);
    }
  }

  // ---------------------------------------------------------------- the objects

  class AuditFinding {
    const rule: string
    const severity: Severity
    const path: string
    const key: string
    var paths: seq<string>
    var methods: seq<string>

    constructor (f: Finding)
      ensures View() == f
    {
      rule, severity, path, key, paths, methods := f.rule, f.severity, f.path, f.key, f.paths, f.methods;
    }

    ghost function View(): Finding
      reads this
    {
      Finding(rule, severity, path, key, paths, methods)
    }

    method Prepare()
      modifies this`paths
      ensures View() == Prepared(old(View()))
    {
      if paths == [] && path != "" {
        paths := [path];
      }
    }

    /** The two loops that add what the other finding affects. */
    method Absorb(other: AuditFinding)
      modifies this
      ensures View() == Merge(old(View()), old(other.View()))
    {
      paths := Extended(paths, other.paths);
      methods := Extended(methods, other.methods);
    }
  }

  /** `for y in ys: if y not in xs: xs.append(y)` */
  method Extended(xs: seq<string>, ys: seq<string>) returns (r: seq<string>)
    ensures r == AddMissing(xs, ys)
  {
    r := xs;
    var i := 0;
    while i < |ys|
      invariant i <= |ys| && AddMissing(r, ys[i..]) == AddMissing(xs, ys)
    {
      if ys[i] !in r {
        r := r + [ys[i]];
      }
      i := i + 1;
    }
  }

  ghost function Views(objects: seq<AuditFinding>): (r: seq<Finding>)
    reads objects
    ensures |r| == |objects|
  {
    seq(|objects|, i requires 0 <= i < |objects| reads objects => objects[i].View())
  }

  /** The kept objects are some of the first `i` findings, each once, in order. */
  ghost predicate Picks(findings: seq<AuditFinding>, i: nat, kept: seq<AuditFinding>, picks: seq<nat>) {
    && i <= |findings| && |picks| == |kept|
    && (forall k :: 0 <= k < |kept| ==> picks[k] < i && kept[k] == findings[picks[k]])
    && (forall k, l :: 0 <= k < l < |kept| ==> picks[k] < picks[l])
  }

  /** Between two rounds: the dictionary is what the spec says of the findings so far, and the ones
      ahead are untouched. */
  ghost predicate Between(findings: seq<AuditFinding>, before: seq<Finding>, i: nat,
                          keys: seq<string>, kept: seq<AuditFinding>, made: nat)
    reads findings, kept
  {
    && |before| == |findings| && i <= |findings| && |keys| == |kept|
    && GroupsOf(before[..i]) == Groups(keys, Views(kept))
    && Ahead(findings, before, i)
    && made == Ungrouped(before[..i])
  }

  /** From the i-th on, the findings are what they were. */
  ghost predicate Ahead(findings: seq<AuditFinding>, before: seq<Finding>, i: nat)
    reads findings
    requires |before| == |findings|
  {
    forall j :: i <= j < |findings| ==> findings[j].View() == before[j]
  }

  ghost predicate AllDifferent(findings: seq<AuditFinding>) {
    forall i, j :: 0 <= i < j < |findings| ==> findings[i] != findings[j]
  }

  /** `_group_logically_identical_findings`: the objects it returns are some of those it was given, and
      show what the specification says. */
  method GroupFindings(findings: seq<AuditFinding>) returns (kept: seq<AuditFinding>)
    requires AllDifferent(findings)
    modifies findings
    ensures forall f :: f in kept ==> f in findings
    ensures Views(kept) == Grouped(old(Views(findings)))
  {
    ghost var before := Views(findings);
    ghost var picks: seq<nat> := [];
    var keys: seq<string>, made, i := [], 0, 0;
    kept := [];
    while i < |findings|
      invariant Picks(findings, i, kept, picks)
      invariant Between(findings, before, i, keys, kept, made)
    {
      keys, kept, made, picks := GroupNext(findings, before, i, keys, kept, made, picks);
      i := i + 1;
    }
    assert before[..i] == before;
  }

  method GroupNext(findings: seq<AuditFinding>, ghost before: seq<Finding>, i: nat,
                   keys: seq<string>, kept: seq<AuditFinding>, made: nat, ghost picks: seq<nat>)
    returns (keys': seq<string>, kept': seq<AuditFinding>, made': nat, ghost picks': seq<nat>)
    requires AllDifferent(findings)
    requires i < |findings| && Picks(findings, i, kept, picks) && Between(findings, before, i, keys, kept, made)
    modifies findings
    ensures Picks(findings, i + 1, kept', picks') && Between(findings, before, i + 1, keys', kept', made')
  {
    PicksAreOthers(findings, i, kept, picks);
    GroupsStep(before, i);
    var key;
    key, made' := PrepareKey(findings, before, i, kept, made);
    keys', kept' := Place(keys, kept, key, findings, before, i);
    picks' := if |kept'| == |kept| then picks else picks + [i];
  }

  lemma PicksAreOthers(findings: seq<AuditFinding>, i: nat, kept: seq<AuditFinding>, picks: seq<nat>)
    requires AllDifferent(findings) && Picks(findings, i, kept, picks)
    ensures AllDifferent(kept)
    ensures forall j :: i <= j < |findings| ==> findings[j] !in kept
    ensures forall f :: f in kept ==> f in findings
  {
  }

  method PrepareKey(findings: seq<AuditFinding>, ghost before: seq<Finding>, i: nat, ghost kept: seq<AuditFinding>,
                    made: nat)
    returns (key: string, made': nat)
    requires AllDifferent(findings) && i < |findings| == |before| && Ahead(findings, before, i) && findings[i] !in kept
    modifies findings[i]
    ensures findings[i].View() == Prepared(before[i])
    ensures key == if before[i].key != "" then before[i].key else "ungrouped:" + Decimal(made)
    ensures made' == made + if before[i].key == "" then 1 else 0
    ensures Ahead(findings, before, i + 1) && Views(kept) == old(Views(kept))
  {
    findings[i].Prepare();
    key, made' := findings[i].key, made;
    if key == "" {
      key := "ungrouped:" + Decimal(made);
      made' := made' + 1;
    }
  }

  /** The finding joins the one kept under its key, or is kept itself. */
  method Place(keys: seq<string>, kept: seq<AuditFinding>, key: string,
               findings: seq<AuditFinding>, ghost before: seq<Finding>, i: nat)
    returns (keys': seq<string>, kept': seq<AuditFinding>)
    requires |keys| == |kept| && AllDifferent(kept) && i < |findings| == |before|
    requires forall j :: i <= j < |findings| ==> findings[j] !in kept
    requires Ahead(findings, before, i + 1)
    modifies kept
    ensures |keys'| == |kept'| && (kept' == kept || kept' == kept + [findings[i]])
    ensures Groups(keys', Views(kept')) == Insert(Groups(keys, old(Views(kept))), key, old(findings[i].View()))
    ensures Ahead(findings, before, i + 1)
  {
    keys', kept' := keys, kept;
    var at := Position(keys, key);
    if at == |keys| {
      keys', kept' := keys + [key], kept + [findings[i]];
      assert Views(kept') == Views(kept) + [findings[i].View()];
    } else {
      kept[at].Absorb(findings[i]);
      assert Views(kept) == old(Views(kept))[at := kept[at].View()];
    }
  }

  lemma GroupsStep(fs: seq<Finding>, i: nat)
    requires i < |fs|
    ensures var key := if fs[i].key != "" then fs[i].key else "ungrouped:" + Decimal(Ungrouped(fs[..i]));
            GroupsOf(fs[..i + 1]) == Insert(GroupsOf(fs[..i]), key, Prepared(fs[i]))
    ensures Ungrouped(fs[..i + 1]) == Ungrouped(fs[..i]) + if fs[i].key == "" then 1 else 0
  {
    var gs := fs[..i + 1];
    assert gs[..i] == fs[..i] && gs[i] == fs[i];
  }
}
