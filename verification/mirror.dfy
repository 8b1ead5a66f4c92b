/** The mirror process itself: the collection root it works on, and every state it passes through. */
module DirectoryMirror {
  import opened Wrappers
  import opened DirectoryPublish
  import opened DirectorySync
  import opened DirectoryReplication

  class Mirror {
    var root: Root
    /** Every state of the collection root: what Radicale may see, and what a crash may leave. */
    ghost var history: seq<Root>

    constructor (root: Root)
      ensures this.root == root && history == []
    {
      this.root, history := root, [];
    }

    /** After what was past when it began, every state was on the way from `start`. */
    ghost predicate Since(past: seq<Root>, start: Root, wanted: set<string>, cards: Files)
      reads this
    {
      && past <= history
      && OnTheWay(start, wanted, cards, root)
      && forall i :: |past| <= i < |history| ==> OnTheWay(start, wanted, cards, history[i])
    }

    /** One atomic file operation. */
    method Become(next: Root, ghost past: seq<Root>, ghost start: Root, ghost wanted: set<string>, ghost cards: Files)
      requires Since(past, start, wanted, cards) && OnTheWay(start, wanted, cards, next)
      modifies this
      ensures root == next && Since(past, start, wanted, cards)
    {
      root := next;
      history := history + [root];
    }

    /** Write a temporary file beside `name`, then rename it over `name`. */
    method AtomicWrite(name: string, data: Data,
                       ghost past: seq<Root>, ghost start: Root, ghost wanted: set<string>, ghost cards: Files)
      requires Since(past, start, wanted, cards) && HasBook(root)
      requires CardsWhole(Book(start), cards, Book(root)[Tmp(name) := data])
      requires CardsWhole(Book(start), cards, Replaced(Book(root), name, data))
      modifies this
      ensures root == WithBook(old(root), Replaced(old(Book(root)), name, data))
      ensures Since(past, start, wanted, cards)
    {
      var book := Book(root);
      WithBookOnTheWay(start, wanted, cards, root, book[Tmp(name) := data]);
      Become(WithBook(root, book[Tmp(name) := data]), past, start, wanted, cards);
      WithBookOnTheWay(start, wanted, cards, root, Replaced(book, name, data));
      Become(WithBook(root, Replaced(book, name, data)), past, start, wanted, cards);
    }

    /** Bring the collection's properties up to date. */
    method SyncProps(props: Data, ghost past: seq<Root>, ghost start: Root, ghost wanted: set<string>,
                     ghost cards: Files)
      requires Since(past, start, wanted, cards) && HasBook(root) && Book(root) == Book(start)
      modifies this
      ensures Copied(past, start, wanted, cards, props, cards.Keys, old(root))
      ensures old(Lookup(Book(root), PROPS)) == Some(props) ==> root == old(root)
    {
      var book := Book(root);
      if PROPS !in book || book[PROPS] != props {
        PropsAreNoCard();
        AtomicWrite(PROPS, props, past, start, wanted, cards);
      }
    }

    /** The book between two rounds: `base` is what it was when its loop began. */
    ghost predicate Copied(past: seq<Root>, start: Root, wanted: set<string>, cards: Files, props: Data,
                           todo: set<string>, base: Root)
      reads this
    {
      && Since(past, start, wanted, cards) && HasBook(root) && HasBook(base)
      && Copying(Book(start), cards, todo, Book(root))
      && Lookup(Book(root), PROPS) == Some(props)
      && root == WithBook(base, Book(root))
    }

    ghost predicate Pruned(past: seq<Root>, start: Root, wanted: set<string>, cards: Files, props: Data,
                           paths: set<string>, base: Root)
      reads this
    {
      && Since(past, start, wanted, cards) && HasBook(root) && HasBook(base)
      && Pruning(Book(start), cards, paths, Book(root))
      && Lookup(Book(root), PROPS) == Some(props)
      && root == WithBook(base, Book(root))
    }

    /** One round of the copying loop. */
    method CopyCard(name: string, cards: Files, ghost props: Data, ghost past: seq<Root>, ghost start: Root,
                    ghost wanted: set<string>, ghost todo: set<string>, ghost base: Root) returns (wrote: bool)
      requires Copied(past, start, wanted, cards, props, todo, base)
      requires name in todo && name in cards && IsCard(name)
      modifies this
      ensures Copied(past, start, wanted, cards, props, todo - {name}, base)
      ensures wrote <==> name in Stale(Book(start), cards)
      ensures !wrote ==> root == old(root)
    {
      CopyStep(Book(start), cards, todo, Book(root), name);
      wrote := !(name in Book(root) && Book(root)[name] == cards[name]);
      if wrote {
        WithBookTwice(base, Book(root), Replaced(Book(root), name, cards[name]));
        PropsStay(Book(root), name, cards[name]);
        AtomicWrite(name, cards[name], past, start, wanted, cards);
      }
    }

    /** Copy every card that differs. */
    method CopyCards(cards: Files, ghost props: Data, ghost past: seq<Root>, ghost start: Root,
                     ghost wanted: set<string>, ghost base: Root) returns (written: nat)
      requires Copied(past, start, wanted, cards, props, cards.Keys, base)
      requires forall n :: n in cards ==> IsCard(n)
      modifies this
      ensures Copied(past, start, wanted, cards, props, {}, base)
      ensures written == |Stale(Book(start), cards)|
      ensures written == 0 ==> root == old(root)
    {
      written := 0;
      ghost var stale := Stale(Book(start), cards);
      var todo := cards.Keys;
      CountEnds(stale, todo);
      while todo != {}
        invariant todo <= cards.Keys
        invariant Copied(past, start, wanted, cards, props, todo, base)
        invariant written == Count(stale, todo)
        invariant written == 0 ==> root == old(root)
      {
        var name :| name in todo;
        CountStep(stale, todo, name);
        var wrote := CopyCard(name, cards, props, past, start, wanted, todo, base);
        if wrote {
          written := written + 1;
        }
        todo := todo - {name};
      }
    }

    /** One round of the removing loop. */
    method PruneCard(name: string, cards: Files, ghost props: Data, ghost past: seq<Root>, ghost start: Root,
                     ghost wanted: set<string>, ghost paths: set<string>, ghost base: Root) returns (gone: bool)
      requires Pruned(past, start, wanted, cards, props, paths, base) && name in paths
      modifies this
      ensures Pruned(past, start, wanted, cards, props, paths - {name}, base)
      ensures gone <==> name in Leftover(Book(start), cards)
      ensures !gone ==> root == old(root)
    {
      PruneStep(Book(start), cards, paths, Book(root), name);
      gone := name !in cards;
      if gone {
        PropsAreNoCard();
        WithBookTwice(base, Book(root), Book(root) - {name});
        WithBookOnTheWay(start, wanted, cards, root, Book(root) - {name});
        Become(WithBook(root, Book(root) - {name}), past, start, wanted, cards);
      }
    }

    /** Remove the cards that are no longer published. */
    method PruneCards(cards: Files, ghost props: Data, ghost past: seq<Root>, ghost start: Root,
                      ghost wanted: set<string>, ghost base: Root) returns (removed: nat)
      requires Copied(past, start, wanted, cards, props, {}, base)
      requires forall n :: n in cards ==> IsCard(n)
      modifies this
      ensures Pruned(past, start, wanted, cards, props, {}, base)
      ensures BookMirrors(Book(root), cards, props)
      ensures removed == |Leftover(Book(start), cards)|
      ensures removed == 0 ==> root == old(root)
    {
      removed := 0;
      ghost var leftover := Leftover(Book(start), cards);
      var paths := CardNames(Book(root));
      PruneStart(Book(start), cards, Book(root));
      CountEnds(leftover, paths);
      while paths != {}
        invariant Pruned(past, start, wanted, cards, props, paths, base)
        invariant removed == Count(leftover, paths)
        invariant removed == 0 ==> root == old(root)
      {
        var name :| name in paths;
        CountStep(leftover, paths, name);
        var gone := PruneCard(name, cards, props, past, start, wanted, paths, base);
        if gone {
          removed := removed + 1;
        }
        paths := paths - {name};
      }
      PruneEnd(Book(start), cards, Book(root));
    }

    /** `book.mkdir(parents=True, exist_ok=True)`: the home, then the book in it. */
    method MakeBook(ghost past: seq<Root>, ghost start: Root, ghost wanted: set<string>, ghost cards: Files)
      requires Since(past, start, wanted, cards) && root == start && !HomeBlocked(start)
      modifies this
      ensures Since(past, start, wanted, cards) && root == WithHome(start)
    {
      WithHomeOnTheWay(root, wanted, cards);
      if HOME !in root {
        Become(WithEmptyHome(root), past, start, wanted, cards);
      }
      Become(WithHome(root), past, start, wanted, cards);
    }

    /** `sync_book`: the book becomes the source's cards. Not possible only when a plain file stands
        where the book's home should be. */
    method SyncBook(props: Data, cards: Files, ghost wanted: set<string>) returns (ok: bool, written: nat, removed: nat)
      requires forall n :: n in cards ==> IsCard(n)
      modifies this
      ensures ok <==> !HomeBlocked(old(root))
      ensures !ok ==> root == old(root)
      ensures Since(old(history), old(root), wanted, cards)
      ensures ok ==> HasBook(root) && BookMirrors(Book(root), cards, props)
      ensures ok ==> root == WithBook(WithHome(old(root)), Book(root))
      ensures ok ==> written == |Stale(Book(old(root)), cards)| && removed == |Leftover(Book(old(root)), cards)|
      ensures ok && HasBook(old(root)) && BookMirrors(Book(old(root)), cards, props) ==> root == old(root)
    {
      written, removed := 0, 0;
      ghost var start, past := root, history;
      StartOnTheWay(start, wanted, cards);
      ok := !HomeBlocked(root);
      if ok {
        MakeBook(past, start, wanted, cards);
        SyncProps(props, past, start, wanted, cards);
        ghost var base := WithHome(start);
        written := CopyCards(cards, props, past, start, wanted, base);
        removed := PruneCards(cards, props, past, start, wanted, base);
        if HasBook(start) && BookMirrors(Book(start), cards, props) {
          MirroredHasNoWork(Book(start), cards);
        }
      }
    }

    /** One round of the first link loop. */
    method LinkHome(u: string, ghost past: seq<Root>, ghost start: Root, ghost wanted: set<string>,
                    ghost todo: set<string>, ghost cards: Files) returns (made: bool)
      requires Since(past, start, wanted, cards) && Linking(start, wanted, todo, root)
      requires u in todo && u in wanted && HOME !in wanted && !(u in root && root[u].File?)
      modifies this
      ensures Since(past, start, wanted, cards) && Linking(start, wanted, todo - {u}, root)
      ensures made <==> u in Missing(start, wanted)
      ensures !made ==> root == old(root)
    {
      LinkStep(start, wanted, todo, root, u);
      LinkingLeavesForeign(start, wanted, todo - {u}, cards, AfterLinking(root, u));
      made := false;
      if u in root && root[u].slot == Link(TARGET) {
        assert root[u := root[u].(slot := Link(TARGET))] == root;
        return;
      }
      if u in root && root[u].slot.Own? {
        return;
      }
      ghost var next := AfterLinking(root, u);
      BareHomeOnTheWay(start, wanted, todo, cards, root, u);
      if u !in root {
        Become(root[u := Dir(Absent, None, map[])], past, start, wanted, cards);
      } else if root[u].slot.Link? {
        Become(root[u := root[u].(slot := Absent)], past, start, wanted, cards);
      }
      assert root[u := root[u].(slot := Link(TARGET))] == next;
      Become(root[u := root[u].(slot := Link(TARGET))], past, start, wanted, cards);
      made := true;
    }

    /** `sync_links`: every listed safe mailbox gets its link, no other mailbox keeps one. It stops
        half-way exactly when the home of a listed mailbox is a plain file. */
    method SyncLinks(users: seq<string>, ghost cards: Files) returns (ok: bool, made: nat, dropped: nat)
      modifies this
      ensures ok <==> !Blocked(old(root), Mailboxes(users))
      ensures Since(old(history), old(root), Mailboxes(users), cards)
      ensures Lookup(root, HOME) == Lookup(old(root), HOME)
      ensures ok ==> Linked(old(root), Mailboxes(users), root)
      ensures ok ==> made == |Missing(old(root), Mailboxes(users))| && dropped == |Dropped(old(root), Mailboxes(users))|
      ensures ok && made == 0 && dropped == 0 ==> root == old(root)
    {
      var wanted := Mailboxes(users);
      ghost var start, past := root, history;
      ghost var missing := Missing(start, wanted);
      made, dropped := 0, 0;
      StartOnTheWay(start, wanted, cards);
      var todo := wanted;
      CountEnds(missing, todo);
      while todo != {}
        invariant todo <= wanted && Since(past, start, wanted, cards)
        invariant Linking(start, wanted, todo, root)
        invariant forall u :: u in wanted && u !in todo ==> !(u in start && start[u].File?)
        invariant made == Count(missing, todo)
        invariant made == 0 ==> root == start
      {
        var u :| u in todo;
        LinkStep(start, wanted, todo, root, u);
        assert u in root <==> u in start by { assert Lookup(root, u) == Lookup(start, u); }
        if u in root && root[u].File? {
          ok := false;
          assert Lookup(root, u) == Lookup(start, u);
          assert u in start && start[u].File?;
          return;
        }
        CountStep(missing, todo, u);
        var new_ := LinkHome(u, past, start, wanted, todo, cards);
        if new_ {
          made := made + 1;
        }
        todo := todo - {u};
      }
      ok := true;
      dropped := DropLinks(wanted, past, start, cards);
    }

    /** The second link loop: unlink what is no longer listed. */
    method DropLinks(wanted: set<string>, ghost past: seq<Root>, ghost start: Root, ghost cards: Files)
      returns (dropped: nat)
      requires Since(past, start, wanted, cards) && Linking(start, wanted, {}, root) && HOME !in wanted
      modifies this
      ensures Since(past, start, wanted, cards) && Linked(start, wanted, root)
      ensures dropped == |Dropped(start, wanted)|
      ensures dropped == 0 ==> root == old(root)
    {
      dropped := 0;
      ghost var gone := Dropped(start, wanted);
      var todo := root.Keys;
      DropStart(start, wanted, root);
      CountEnds(gone, todo);
      while todo != {}
        invariant Since(past, start, wanted, cards)
        invariant Unlinking(start, wanted, todo, root)
        invariant dropped == Count(gone, todo)
        invariant dropped == 0 ==> root == old(root)
      {
        var home :| home in todo;
        CountStep(gone, todo, home);
        var unlinked := DropLink(home, wanted, past, start, cards, todo);
        dropped := dropped + if unlinked then 1 else 0;
        todo := todo - {home};
      }
    }

    /** One round of the second link loop. */
    method DropLink(home: string, wanted: set<string>, ghost past: seq<Root>, ghost start: Root, ghost cards: Files,
                    ghost todo: set<string>) returns (unlinked: bool)
      requires Since(past, start, wanted, cards) && HOME !in wanted
      requires home in todo && Unlinking(start, wanted, todo, root)
      modifies this
      ensures Since(past, start, wanted, cards) && Unlinking(start, wanted, todo - {home}, root)
      ensures unlinked <==> home in Dropped(start, wanted)
      ensures !unlinked ==> root == old(root)
    {
      UnlinkStep(start, wanted, todo, root, home);
      unlinked := false;
      if home in wanted || home == HOME || !(home in root && root[home].Dir?) {
      } else if root[home].slot == Link(TARGET) {
        UnlinkingLeavesForeign(start, wanted, todo - {home}, cards, root[home := root[home].(slot := Absent)]);
        Become(root[home := root[home].(slot := Absent)], past, start, wanted, cards);
        unlinked := true;
      }
    }

    /** The first half of `withdraw`: every link to the book. */
    method WithdrawLinks(ghost past: seq<Root>, ghost start: Root) returns (removed: nat)
      requires Since(past, start, {}, map[]) && root == start
      modifies this
      ensures Since(past, start, {}, map[]) && Withdrawing(start, {}, root)
      ensures removed == |LinkedHomes(start)|
    {
      removed := 0;
      ghost var linked := LinkedHomes(start);
      var todo := root.Keys;
      WithdrawStart(start);
      CountEnds(linked, todo);
      while todo != {}
        invariant Since(past, start, {}, map[])
        invariant Withdrawing(start, todo, root)
        invariant removed == Count(linked, todo)
      {
        var home :| home in todo;
        WithdrawStep(start, todo, root, home);
        CountStep(linked, todo, home);
        if home in root && root[home].Dir? && root[home].slot == Link(TARGET) {
          WithdrawingLeavesForeign(start, todo - {home}, root[home := root[home].(slot := Absent)]);
          Become(root[home := root[home].(slot := Absent)], past, start, {}, map[]);
          removed := removed + 1;
        }
        todo := todo - {home};
      }
    }

    /** `shutil.rmtree` of the book's home: file by file, the folder last. */
    method RemoveHome(ghost past: seq<Root>, ghost start: Root)
      requires Since(past, start, {}, map[]) && HOME in root && root[HOME].Dir?
      requires !HomeBlocked(start)
      modifies this
      ensures Since(past, start, {}, map[])
      ensures root == old(root) - {HOME}
    {
      while HasBook(root) && Book(root) != map[]
        invariant Since(past, start, {}, map[])
        invariant HOME in root && root[HOME].Dir? && root - {HOME} == old(root) - {HOME}
        decreases |Book(root)|
      {
        var name :| name in Book(root);
        ghost var size := |Book(root)|;
        RemoveOne(start, root, name);
        Become(WithBook(root, Book(root) - {name}), past, start, {}, map[]);
      }
      RemoveLast(start, root);
      Become(root - {HOME}, past, start, {}, map[]);
    }

    /** `withdraw`: afterwards neither the book nor a link to it is left, and nothing else is gone. */
    method Withdraw() returns (removed: nat)
      modifies this
      ensures Withdrawn(old(root), root)
      ensures Since(old(history), old(root), {}, map[])
    {
      ghost var start, past := root, history;
      StartOnTheWay(start, {}, map[]);
      removed := WithdrawLinks(past, start);
      WithdrawingLeavesForeign(start, {}, root);
      if HOME in root && root[HOME].Dir? {
        RemoveHome(past, start);
        removed := removed + 1;
      }
      WithdrawEnd(start, root);
    }

    /** The enabled half of `cycle`. */
    method Publish(source: Source) returns (raised: bool)
      requires Active(source)
      modifies this
      ensures raised <==> Raises(old(root), source)
      ensures RoundOn(old(root), source, root)
      ensures Since(old(history), old(root), WantedHomes(source), PublishedCards(source))
    {
      ghost var start, past := root, history;
      var manifest, cards := source.manifest.value, PublishedCards(source);
      ghost var wanted := WantedHomes(source);
      var ok, written, removed := SyncBook(manifest.props, cards, wanted);
      if !ok {
        return true;
      }
      ghost var mid := root;
      label links:
      BookOnly(start, mid, wanted);
      var linked, made, dropped := SyncLinks(manifest.users, cards);
      raised := !linked;
      KeepsHome(mid, root);
      forall i | |past| <= i < |history| ensures OnTheWay(start, wanted, cards, history[i]) {
        if |old@links(history)| <= i {
          OnTheWayTransitive(start, wanted, cards, mid, history[i]);
        }
      }
      OnTheWayTransitive(start, wanted, cards, mid, root);
    }

    /** One round of the main loop: `cycle` with what the last round answered. An exception leaves
        `last` as it was. Every state on the way is one a crash may leave. */
    method Cycle(source: Source, last: Option<string>) returns (next: Option<string>)
      modifies this
      ensures Round(Sync(last, old(root)), source, Sync(next, root))
      ensures old(history) <= history
      ensures forall i :: |old(history)| <= i < |history| ==>
                Crash(Sync(last, old(root)), source, Sync(None, history[i]))
    {
      if !Active(source) {
        if last != Some("off") {
          var removed := Withdraw();
        }
        next := Some("off");
      } else {
        var raised := Publish(source);
        var sha := source.manifest.value.sha;
        next := if raised then last else Some(if sha == "" then "on" else sha);
      }
    }
  }

  /** Making the book changes nothing the links depend on. */
  lemma BookOnly(start: Root, mid: Root, wanted: set<string>)
    requires !HomeBlocked(start) && HasBook(mid) && mid == WithBook(WithHome(start), Book(mid)) && HOME !in wanted
    ensures forall n :: n != HOME ==>
              Lookup(mid, n) == Lookup(start, n) && LinkedAt(mid, wanted, n) == LinkedAt(start, wanted, n)
    ensures Blocked(mid, wanted) <==> Blocked(start, wanted)
    ensures Missing(mid, wanted) == Missing(start, wanted) && Dropped(mid, wanted) == Dropped(start, wanted)
  {
    assert forall n :: n != HOME ==> (n in mid <==> n in start) && (n in mid ==> mid[n] == start[n]);
    assert forall n :: n != HOME ==> HasLink(mid, n) == HasLink(start, n);
  }

  lemma StartOnTheWay(start: Root, wanted: set<string>, cards: Files)
    ensures OnTheWay(start, wanted, cards, start)
  {
  }

  lemma PropsAreNoCard()
    ensures !IsCard(PROPS)
  {
    assert PROPS[|PROPS| - 1] == 's' && ".vcf"[3] == 'f';
  }

  lemma WithBookTwice(root: Root, one: Files, two: Files)
    requires HasBook(root)
    ensures WithBook(WithBook(root, one), two) == WithBook(root, two)
  {
  }

  lemma PropsStay(book: Files, name: string, data: Data)
    requires IsCard(name)
    ensures Lookup(Replaced(book, name, data), PROPS) == Lookup(book, PROPS)
  {
    PropsAreNoCard();
  }

  lemma MirroredHasNoWork(book: Files, cards: Files)
    requires CardsOf(book) == cards
    ensures Stale(book, cards) == {} && Leftover(book, cards) == {}
  {
  }

  lemma BareHomeOnTheWay(start: Root, wanted: set<string>, todo: set<string>, cards: Files, now: Root, u: string)
    requires Linking(start, wanted, todo, now) && u in todo && u in wanted && HOME !in wanted
    requires OnTheWay(start, wanted, cards, now)
    requires !(u in now && (now[u].File? || now[u].slot.Own?))
    ensures u !in now ==> OnTheWay(start, wanted, cards, now[u := Dir(Absent, None, map[])])
    ensures u in now && now[u].slot.Link? ==> OnTheWay(start, wanted, cards, now[u := now[u].(slot := Absent)])
  {
    assert Lookup(now, u) == Lookup(start, u);
    if u !in now || now[u].slot.Link? {
      var next := if u !in now then now[u := Dir(Absent, None, map[])] else now[u := now[u].(slot := Absent)];
      forall n | n != HOME ensures LeavesForeignAt(start, wanted, next, n) {
        assert LeavesForeignAt(start, wanted, now, n);
      }
    }
  }

  lemma DropStart(start: Root, wanted: set<string>, now: Root)
    requires Linking(start, wanted, {}, now) && HOME !in wanted
    ensures Unlinking(start, wanted, now.Keys, now) && Dropped(start, wanted) <= now.Keys
  {
    forall n
      ensures n in now <==> Lookup(now, n).Some?
      ensures n in start <==> Lookup(start, n).Some?
    {
    }
  }

  lemma WithdrawStart(start: Root)
    ensures Withdrawing(start, start.Keys, start)
    ensures LinkedHomes(start) <= start.Keys
  {
  }

  lemma WithdrawEnd(start: Root, now: Root)
    requires exists mid: Root ::
               Withdrawing(start, {}, mid) && now == (if HOME in mid && mid[HOME].Dir? then mid - {HOME} else mid)
    ensures Withdrawn(start, now)
  {
    var mid: Root :|
      Withdrawing(start, {}, mid) && now == (if HOME in mid && mid[HOME].Dir? then mid - {HOME} else mid);
    WithdrawingLeavesForeign(start, {}, mid);
    forall n | n != HOME ensures Lookup(now, n) == WithdrawnAt(start, n) {
      assert Lookup(now, n) == Lookup(mid, n);
    }
    assert Lookup(mid, HOME) == WithdrawnAt(start, HOME);
  }

  lemma RemoveOne(start: Root, now: Root, name: string)
    requires OnTheWay(start, {}, map[], now) && HasBook(now) && name in Book(now)
    ensures OnTheWay(start, {}, map[], WithBook(now, Book(now) - {name}))
    ensures |Book(now) - {name}| < |Book(now)|
    ensures WithBook(now, Book(now) - {name}) - {HOME} == now - {HOME}
  {
    var book := Book(now) - {name};
    assert book.Keys == Book(now).Keys - {name};
    assert |book| == |book.Keys| && |Book(now)| == |Book(now).Keys|;
    forall n | IsCard(n)
      ensures Lookup(book, n) == Lookup(Book(start), n) || Lookup(book, n) == Lookup<string, Data>(map[], n)
    {
      assert Lookup(Book(now), n) == Lookup(Book(start), n) || Lookup(Book(now), n) == None;
    }
    WithBookOnTheWay(start, {}, map[], now, book);
  }

  lemma RemoveLast(start: Root, now: Root)
    requires OnTheWay(start, {}, map[], now) && !HomeBlocked(start)
    ensures OnTheWay(start, {}, map[], now - {HOME})
  {
    forall n | n != HOME ensures LeavesForeignAt(start, {}, now - {HOME}, n) {
      assert LeavesForeignAt(start, {}, now, n);
    }
  }
}
