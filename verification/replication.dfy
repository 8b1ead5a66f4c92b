/**
 Publisher and mirror together: what one round of the mirror does to the collection root, and what
 follows for runs of rounds, crashes and restarts.
 */
module DirectoryReplication {
  import opened Wrappers
  import opened DirectoryPublish
  import opened DirectorySync

  /** The mirror's state: what the last completed round answered, and the collection root. */
  datatype Sync = Sync(last: Option<string>, root: Root)

  predicate Active(source: Source) {
    source.manifest.Some? && source.manifest.value.enabled
  }

  function WantedHomes(source: Source): (wanted: set<string>)
    ensures HOME !in wanted
  {
    if Active(source) then Mailboxes(source.manifest.value.users) else {}
  }

  function PublishedCards(source: Source): (cards: Files)
    ensures forall n :: n in cards ==> IsCard(n)
  {
    if Active(source) then CardsOf(source.files) else map[]
  }

  /** Where a round stops with an exception: a plain file in the place of a home. */
  predicate Raises(root: Root, source: Source) {
    Active(source) && (HomeBlocked(root) || Blocked(root, WantedHomes(source)))
  }

  ghost predicate NothingToDo(root: Root, wanted: set<string>, cards: Files, props: Data) {
    && HasBook(root) && BookMirrors(Book(root), cards, props)
    && Missing(root, wanted) == {} && Dropped(root, wanted) == {}
  }

  /** A round under an enabled manifest. */
  ghost predicate RoundOn(before: Root, source: Source, after: Root)
    requires Active(source)
  {
    var wanted, cards, props := WantedHomes(source), PublishedCards(source), source.manifest.value.props;
    && OnTheWay(before, wanted, cards, after)
    && (HomeBlocked(before) ==> after == before)
    && (!HomeBlocked(before) ==> HasBook(after) && BookMirrors(Book(after), cards, props))
    && (!Raises(before, source) ==> forall n :: n != HOME ==> Lookup(after, n) == LinkedAt(before, wanted, n))
    && (!Raises(before, source) && NothingToDo(before, wanted, cards, props) ==> after == before)
  }

  /** One round of the main loop: `cycle`, or `last` unchanged when it raised. */
  ghost predicate Round(s: Sync, source: Source, t: Sync) {
    if Active(source) then
      && RoundOn(s.root, source, t.root)
      && t.last == if Raises(s.root, source) then s.last
                   else Some(if source.manifest.value.sha == "" then "on" else source.manifest.value.sha)
    else
      && t.last == Some("off")
      && if s.last == Some("off") then t.root == s.root
         else Withdrawn(s.root, t.root) && OnTheWay(s.root, {}, map[], t.root)
  }

  /** The process stops inside a round and is started again. */
  ghost predicate Crash(s: Sync, source: Source, t: Sync) {
    t.last == None && OnTheWay(s.root, WantedHomes(source), PublishedCards(source), t.root)
  }

  // ---------------------------------------------------------------- convergence

  /** The collection root shows what the source says: the book is the published cards, every listed
      safe mailbox has the link unless it has a collection of its own there, no other mailbox has. */
  ghost predicate Mirrors(root: Root, source: Source)
    requires Active(source)
  {
    && HasBook(root)
    && BookMirrors(Book(root), PublishedCards(source), source.manifest.value.props)
    && (forall u :: u in WantedHomes(source) ==>
          u in root && root[u].Dir? && (root[u].slot == Link(TARGET) || root[u].slot.Own?))
    && (forall n :: n !in WantedHomes(source) && n != HOME ==> !HasLink(root, n))
  }

  /** Whatever the collection root held: one undisturbed round makes it mirror the source, exactly when no
      plain file stands in the place of a home. */
  lemma RoundConverges(s: Sync, source: Source, t: Sync)
    requires Active(source) && Round(s, source, t)
    ensures Mirrors(t.root, source) <==> !Raises(s.root, source)
  {
    if Raises(s.root, source) {
      BlockedStays(s, source, t);
    } else {
      FreeRoundConverges(s, source, t);
    }
  }

  /** A plain file in the place of a home is left alone, and no link can be made there. */
  lemma BlockedStays(s: Sync, source: Source, t: Sync)
    requires Active(source) && Raises(s.root, source) && Round(s, source, t)
    ensures !Mirrors(t.root, source)
  {
    var wanted := WantedHomes(source);
    if !HomeBlocked(s.root) {
      var u :| u in wanted && u in s.root && s.root[u].File?;
      assert LeavesForeignAt(s.root, wanted, t.root, u);
    }
  }

  lemma FreeRoundConverges(s: Sync, source: Source, t: Sync)
    requires Active(source) && !Raises(s.root, source) && Round(s, source, t)
    ensures Mirrors(t.root, source)
  {
    var wanted := WantedHomes(source);
    forall n | n != HOME
      ensures n in wanted ==> n in t.root && t.root[n].Dir? && (t.root[n].slot == Link(TARGET) || t.root[n].slot.Own?)
      ensures n !in wanted ==> !HasLink(t.root, n)
    {
      assert Lookup(t.root, n) == LinkedAt(s.root, wanted, n);
      if n in wanted && n in s.root {
        assert !s.root[n].File?;
      }
    }
  }

  /** A mailbox keeps a collection of its own: the mirror makes no link there, and a link that
      appears is the mirror's. */
  lemma OwnCollectionsStay(s: Sync, source: Source, t: Sync, n: string)
    requires Active(source) && !Raises(s.root, source) && Round(s, source, t) && n != HOME
    ensures HasLink(t.root, n) <==> n in WantedHomes(source) && !(n in s.root && s.root[n].slot.Own?)
  {
    assert Lookup(t.root, n) == LinkedAt(s.root, WantedHomes(source), n);
    if n in WantedHomes(source) && n in s.root {
      assert !s.root[n].File?;
    }
    assert n in t.root <==> Lookup(t.root, n).Some?;
  }

  /** A round that went through answers with the manifest's digest, so that the next one knows what it has shown,
      and one that raised with what it answered before. */
  lemma RoundAnswers(s: Sync, source: Source, t: Sync)
    requires Active(source) && Round(s, source, t)
    ensures Raises(s.root, source) ==> t.last == s.last
    ensures !Raises(s.root, source) ==>
              t.last == Some(if source.manifest.value.sha != "" then source.manifest.value.sha else "on")
  {
  }

  /** Every listed address has the link after an undisturbed round, unless it has a collection of its own: any
      address with an '@', of at most 254 characters, without upper-case letters, separators or a leading dot. */
  lemma ListedAddressGetsLink(s: Sync, source: Source, t: Sync, a: string, b: string)
    requires Active(source) && !Raises(s.root, source) && Round(s, source, t)
    requires var address := a + ("@" + b);
             && address in source.manifest.value.users && |address| <= 254 && address[0] != '.'
             && forall i :: 0 <= i < |address| ==>
                  address[i] != '/' && address[i] != '\\' && address[i] != '\0' && !('A' <= address[i] <= 'Z')
    ensures var address := a + ("@" + b);
            && address in t.root && t.root[address].Dir?
            && (t.root[address].slot == Link("../_directory/people")
                || (address in s.root && s.root[address].Dir? && s.root[address].slot.Own?
                    && t.root[address].slot == s.root[address].slot))
  {
    var address := a + ("@" + b);
    assert address[|a|] == '@';
    RoundConverges(s, source, t);
    assert HOME[0] == '_' && '@' !in HOME;
    assert Lookup(t.root, address) == LinkedAt(s.root, WantedHomes(source), address);
    assert address in WantedHomes(source);
  }

  /** Once it mirrors, another round writes, links and removes nothing. */
  lemma MirroredIsStable(s: Sync, source: Source, t: Sync)
    requires Active(source) && Mirrors(s.root, source) && Round(s, source, t)
    ensures t.root == s.root
  {
    var wanted := WantedHomes(source);
    assert !Raises(s.root, source);
    forall u | u in wanted ensures LinkedAt(s.root, wanted, u) == Lookup(s.root, u) {
      if s.root[u].slot == Link(TARGET) {
        assert s.root[u].(slot := Link(TARGET)) == s.root[u];
      }
    }
    assert Missing(s.root, wanted) == {};
    assert Dropped(s.root, wanted) == {};
  }

  /** End to end: from any source directory and any collection root, a completed publish and one round give
      exactly the published cards unless a plain file stands in the place of the book's home, and mirror the
      source unless one stands in the place of any home; and then a second publish and round change nothing. */
  lemma PublishThenRound(files: Files, wanted: Files, manifest: Manifest, published: Files, s: Sync, t: Sync,
                         again: Files, u: Sync)
    requires forall n :: n in wanted ==> IsCard(n)
    requires Published(files, wanted, published) && manifest.enabled
    requires Round(s, Source(published, Some(manifest)), t)
    requires Published(published, wanted, again) && Round(t, Source(again, Some(manifest)), u)
    ensures !HomeBlocked(s.root) ==> CardsOf(Book(t.root)) == wanted
    ensures Mirrors(t.root, Source(published, Some(manifest))) <==> !Raises(s.root, Source(published, Some(manifest)))
    ensures again == published
    ensures !Raises(s.root, Source(published, Some(manifest))) ==> u.root == t.root
  {
    var source := Source(published, Some(manifest));
    HoldsTheWanted(files, wanted, published);
    RoundConverges(s, source, t);
    PublishAgain(files, wanted, published, again);
    if !Raises(s.root, source) {
      MirroredIsStable(t, source, u);
    }
  }

  // ---------------------------------------------------------------- runs

  ghost predicate Step(s: Sync, source: Source, t: Sync) {
    Round(s, source, t) || Crash(s, source, t)
  }

  /** A run: after state i the mirror looks at sources[i]. */
  ghost predicate Run(states: seq<Sync>, sources: seq<Source>) {
    && |states| == |sources| + 1
    && forall i :: 0 <= i < |sources| ==> Step(states[i], sources[i], states[i + 1])
  }

  function EverWanted(sources: seq<Source>): (wanted: set<string>)
    ensures HOME !in wanted
  {
    if sources == [] then {} else EverWanted(sources[..|sources| - 1]) + WantedHomes(sources[|sources| - 1])
  }

  lemma StepLeavesForeign(s: Sync, source: Source, t: Sync)
    requires Step(s, source, t)
    ensures LeavesForeign(s.root, WantedHomes(source), t.root)
    ensures HomeBlocked(t.root) <==> HomeBlocked(s.root)
  {
    if Round(s, source, t) && !Active(source) && s.last == Some("off") {
    } else {
      OnTheWayBlocks(s.root, WantedHomes(source), PublishedCards(source), t.root, {});
    }
  }

  lemma LeavesForeignWider(a: Root, wanted: set<string>, b: Root, wider: set<string>)
    requires LeavesForeign(a, wanted, b) && wanted <= wider
    ensures LeavesForeign(a, wider, b)
  {
    forall n | n != HOME ensures LeavesForeignAt(a, wider, b, n) {
      assert LeavesForeignAt(a, wanted, b, n);
    }
  }

  /** Over every run, with crashes and restarts anywhere: no personal collection and no other data is
      touched, and a link to somewhere else is replaced only in a home that was listed. */
  lemma {:induction false} RunLeavesForeign(states: seq<Sync>, sources: seq<Source>)
    requires Run(states, sources)
    ensures LeavesForeign(states[0].root, EverWanted(sources), states[|sources|].root)
    ensures HomeBlocked(states[|sources|].root) <==> HomeBlocked(states[0].root)
  {
    if sources != [] {
      var k := |sources| - 1;
      var a, b, c := states[0].root, states[k].root, states[k + 1].root;
      var ever := EverWanted(sources);
      RunLeavesForeign(states[..k + 1], sources[..k]);
      assert Step(states[k], sources[k], states[k + 1]);
      StepLeavesForeign(states[k], sources[k], states[k + 1]);
      LeavesForeignWider(a, EverWanted(sources[..k]), b, ever);
      LeavesForeignWider(b, WantedHomes(sources[k]), c, ever);
      forall n | n != HOME ensures LeavesForeignAt(a, ever, c, n) {
        assert LeavesForeignAt(a, ever, b, n) && LeavesForeignAt(b, ever, c, n);
      }
    }
  }

  /** A name that could leave the collection root, or is no address, is never made a home or given a link, in any
      run. */
  predicate NoHomeName(name: string) {
    || name == "" || name[0] == '.' || '/' in name || '\\' in name || '\0' in name || '@' !in name || |name| > 254
    || exists i :: 0 <= i < |name| && 'A' <= name[i] <= 'Z'
  }

  lemma OddIsUnsafe(name: string)
    requires NoHomeName(name)
    ensures !SafeName(name)
  {
    if i :| 0 <= i < |name| && 'A' <= name[i] <= 'Z' {
      assert name[i] in name;
    }
  }

  lemma {:induction false} NeverWanted(sources: seq<Source>, name: string)
    requires NoHomeName(name)
    ensures name !in EverWanted(sources)
  {
    if sources != [] {
      OddIsUnsafe(name);
      NeverWanted(sources[..|sources| - 1], name);
    }
  }

  lemma OddNamesStay(states: seq<Sync>, sources: seq<Source>, name: string)
    requires Run(states, sources) && NoHomeName(name) && name != "_directory"
    ensures var a, b := states[0].root, states[|sources|].root;
            && (name in b <==> name in a)
            && (name in b && b[name].Dir? && b[name].slot.Link? ==> a[name].Dir? && a[name].slot == b[name].slot)
  {
    NeverWanted(sources, name);
    RunLeavesForeign(states, sources);
    assert LeavesForeignAt(states[0].root, EverWanted(sources), states[|sources|].root, name);
  }

  /** A crash, or any number of them, costs nothing: the next undisturbed round converges, exactly
      as it would have from the state before the run. */
  lemma RunThenConverges(states: seq<Sync>, sources: seq<Source>, source: Source, t: Sync)
    requires Run(states, sources)
    requires Active(source) && Round(states[|sources|], source, t)
    ensures Mirrors(t.root, source) <==> !Raises(states[0].root, source)
  {
    RunLeavesForeign(states, sources);
    var a, b := states[0].root, states[|sources|].root;
    forall u | u in WantedHomes(source) ensures u in b && b[u].File? <==> u in a && a[u].File? {
      assert LeavesForeignAt(a, EverWanted(sources), b, u);
    }
    RoundConverges(states[|sources|], source, t);
  }

  // ---------------------------------------------------------------- what 'off' means

  /** Without a manifest, or when it says the directory is off, the round withdraws everything. */
  lemma DisabledWithdraws(s: Sync, source: Source, t: Sync)
    requires source.manifest == None || !source.manifest.value.enabled
    requires s.last != Some("off") && Round(s, source, t)
    ensures t.last == Some("off") && Clean(t.root)
  {
    WithdrawnIsClean(s.root, t.root);
  }

  ghost predicate OffMeansClean(s: Sync) {
    s.last == Some("off") ==> Clean(s.root)
  }

  /** The round that breaks it: started in state 'off' under an enabled manifest, and stopped by a
      blocked mailbox home after the book was made. `last` stays 'off', so nothing withdraws it. */
  predicate LeavesBookBehind(s: Sync, source: Source) {
    s.last == Some("off") && Active(source) && !HomeBlocked(s.root) && Raises(s.root, source)
  }

  /** State 'off' means withdrawn, exactly as long as no such round happens. */
  lemma OffStaysClean(s: Sync, source: Source, t: Sync)
    requires OffMeansClean(s) && Round(s, source, t)
    ensures OffMeansClean(t) <==> !LeavesBookBehind(s, source)
  {
    if Active(source) {
      if LeavesBookBehind(s, source) {
        assert HasBook(t.root);
        assert !Clean(t.root);
      }
    } else if s.last != Some("off") {
      WithdrawnIsClean(s.root, t.root);
    }
  }

  lemma {:induction false} RunKeepsOffClean(states: seq<Sync>, sources: seq<Source>)
    requires Run(states, sources) && OffMeansClean(states[0])
    requires forall i :: 0 <= i < |sources| ==> !LeavesBookBehind(states[i], sources[i])
    ensures OffMeansClean(states[|sources|])
  {
    if sources != [] {
      var k := |sources| - 1;
      RunKeepsOffClean(states[..k + 1], sources[..k]);
      assert Step(states[k], sources[k], states[k + 1]);
      if Round(states[k], sources[k], states[k + 1]) {
        OffStaysClean(states[k], sources[k], states[k + 1]);
      }
    }
  }

  /** It does happen: mailbox `a@x` is a plain file. The directory is switched on, the round makes the
      book and raises; it is switched off again, and the book stays for good. */
  lemma BookLeftBehind(on: Source, off: Source, s: Sync, t: Sync, u: Sync)
    requires on == Source(map[], Some(Manifest(true, [], ["a@x"], "0f"))) && off == Source(map[], None)
    requires s == Sync(Some("off"), map["a@x" := File([])])
    requires t == Sync(Some("off"), s.root[HOME := Dir(Absent, Some(map[PROPS := []]), map[])]) && u == t
    ensures Round(s, on, t) && Round(t, off, u)
    ensures OffMeansClean(s) && !OffMeansClean(u)
  {
    assert "a@x"[1] == '@';
    assert SafeName("a@x");
    assert "a@x" in on.manifest.value.users by { assert on.manifest.value.users[0] == "a@x"; }
    assert HOME != "a@x" by { assert HOME[0] == '_'; }
    assert "a@x" in WantedHomes(on) && "a@x" in s.root && s.root["a@x"].File?;
    assert Raises(s.root, on);
    assert PROPS[|PROPS| - 1] == 's' && ".vcf"[3] == 'f';
    assert !IsCard(PROPS);
    assert CardsOf(Book(t.root)) == map[] == CardsOf(on.files);
  }
}
