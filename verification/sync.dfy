/**
 The mirror's half of the contact directory: a process beside Radicale that keeps one address book
 below `_directory/people` and one link to it in every listed mailbox's home, and withdraws both.
 */
module DirectorySync {
  import opened Wrappers
  import opened DirectoryPublish

  const HOME := "_directory"
  const PROPS := ".Radicale.props"
  const TARGET := "../_directory/people"

  /** What is at `<home>/directory`: nothing, a symbolic link, or a collection of the person's own. */
  datatype Slot = Absent | Link(target: string) | Own(content: Data)

  /** One name below the collection root. Every folder may have a `directory`, a `people` folder and
      anything else. */
  datatype Node = File(data: Data) | Dir(slot: Slot, people: Option<Files>, rest: Files)
  type Root = map<string, Node>

  predicate SafeName(address: string) {
    && address != ""
    && '@' in address
    && address[0] != '.'
    && (forall c :: c in address ==> c != '/' && c != '\\' && c != '\0')
    && (forall c :: c in address ==> !('A' <= c <= 'Z'))
    && |address| <= 254
  }

  /** The book's home never collides with a mailbox name. */
  lemma HomeIsNoMailbox()
    ensures !SafeName(HOME)
  {
    assert forall i :: 0 <= i < |HOME| ==> HOME[i] != '@';
  }

  function Mailboxes(users: seq<string>): (wanted: set<string>)
    ensures HOME !in wanted
  {
    HomeIsNoMailbox();
    set u | u in users && SafeName(u)
  }

  /** A mailbox whose home is occupied by a plain file: `mkdir` raises. */
  predicate Blocked(root: Root, wanted: set<string>) {
    exists u :: u in wanted && u in root && root[u].File?
  }

  predicate HomeBlocked(root: Root) {
    HOME in root && root[HOME].File?
  }

  // ---------------------------------------------------------------- the address book

  /** `.<name>.tmp`, the file an atomic write goes through. */
  function Tmp(name: string): (tmp: string)
    ensures !IsCard(tmp) && tmp != PROPS
  {
    var tmp := "." + name + ".tmp";
    assert tmp[|tmp| - 4..] == ".tmp";
    assert tmp[|tmp| - 1] == 'p' && PROPS[|PROPS| - 1] == 's';
    tmp
  }

  /** It is hidden, beside the file, and names it. */
  lemma TmpNames(name: string)
    ensures |Tmp(name)| == |name| + 5 && Tmp(name)[0] == '.' && Tmp(name)[1..|name| + 1] == name
  {
  }

  function Book(root: Root): Files {
    if HOME in root && root[HOME].Dir? then root[HOME].people.GetOr(map[]) else map[]
  }

  /** The book is what the source holds: exactly its cards, and the properties. */
  ghost predicate BookMirrors(book: Files, cards: Files, props: Data) {
    CardsOf(book) == cards && Lookup(book, PROPS) == Some(props)
  }

  /** No card is ever half written: it is as before, as published, or gone because it is not
      published. */
  ghost predicate CardsWhole(before: Files, cards: Files, now: Files) {
    forall n :: IsCard(n) ==> Lookup(now, n) == Lookup(before, n) || Lookup(now, n) == Lookup(cards, n)
  }

  // ---------------------------------------------------------------- the links

  /** What `sync_links` leaves under `name`. */
  function LinkedAt(root: Root, wanted: set<string>, name: string): Option<Node> {
    if name in wanted then
      if name !in root then Some(Dir(Link(TARGET), None, map[]))
      else if root[name].Dir? && !root[name].slot.Own? then Some(root[name].(slot := Link(TARGET)))
      else Some(root[name])
    else if name != HOME && HasLink(root, name) then
      Some(root[name].(slot := Absent))
    else
      Lookup(root, name)
  }

  predicate HasLink(root: Root, name: string) {
    name in root && root[name].Dir? && root[name].slot == Link(TARGET)
  }

  function LinkedHomes(root: Root): set<string> {
    set n | n in root && HasLink(root, n)
  }

  ghost predicate Linked(before: Root, wanted: set<string>, after: Root) {
    forall n :: Lookup(after, n) == LinkedAt(before, wanted, n)
  }

  /** Mailboxes that have no link yet and no collection of their own in its place. */
  function Missing(root: Root, wanted: set<string>): set<string> {
    set u | u in wanted && LinkedAt(root, wanted, u) != Lookup(root, u)
  }

  function Dropped(root: Root, wanted: set<string>): set<string> {
    set u | u in root && u !in wanted && u != HOME && HasLink(root, u)
  }

  // ---------------------------------------------------------------- foreign data

  /** What may become of a `directory` slot. A collection of the person's own is never touched, a
      link to somewhere else is replaced only in a wanted home. */
  predicate SlotMoves(before: Slot, now: Slot, wanted: bool) {
    || now == before
    || (now == Absent && (before == Link(TARGET) || (wanted && before.Link?)))
    || (now == Link(TARGET) && wanted && !before.Own?)
  }

  /** Nothing outside the book and the links has changed. */
  ghost predicate LeavesForeign(before: Root, wanted: set<string>, now: Root) {
    forall n :: n != HOME ==> LeavesForeignAt(before, wanted, now, n)
  }

  predicate LeavesForeignAt(before: Root, wanted: set<string>, now: Root, n: string) {
    if n !in before then
      n !in now || (n in wanted && now[n].Dir? && now[n].people == None && now[n].rest == map[]
                    && (now[n].slot == Absent || now[n].slot == Link(TARGET)))
    else if before[n].File? then
      n in now && now[n] == before[n]
    else
      n in now && now[n].Dir? && now[n].people == before[n].people && now[n].rest == before[n].rest
      && SlotMoves(before[n].slot, now[n].slot, n in wanted)
  }

  /** A state a run passes through, seen from where it began. */
  ghost predicate OnTheWay(before: Root, wanted: set<string>, cards: Files, now: Root) {
    && LeavesForeign(before, wanted, now)
    && CardsWhole(Book(before), cards, Book(now))
    && (HomeBlocked(before) ==> Lookup(now, HOME) == Lookup(before, HOME))
    && (!HomeBlocked(before) ==> !HomeBlocked(now))
  }

  /** Neither the book nor any link to it is left. */
  ghost predicate Clean(root: Root) {
    && (HOME in root ==> root[HOME].File?)
    && forall n :: n != HOME ==> !HasLink(root, n)
  }

  // ---------------------------------------------------------------- between the loop rounds

  /** Links: the mailboxes in `todo` are still ahead. */
  ghost predicate Linking(before: Root, wanted: set<string>, todo: set<string>, now: Root) {
    forall n :: Lookup(now, n) == if n in wanted && n !in todo then LinkedAt(before, wanted, n) else Lookup(before, n)
  }

  /** Links: every wanted mailbox is done, the homes in `todo` are still ahead. */
  ghost predicate Unlinking(before: Root, wanted: set<string>, todo: set<string>, now: Root) {
    forall n :: Lookup(now, n) == if n in wanted || n !in todo then LinkedAt(before, wanted, n) else Lookup(before, n)
  }

  function AfterLinking(root: Root, u: string): Root
  {
    if u !in root then root[u := Dir(Link(TARGET), None, map[])]
    else if root[u].Dir? && !root[u].slot.Own? then root[u := root[u].(slot := Link(TARGET))]
    else root
  }

  lemma LinkStep(before: Root, wanted: set<string>, todo: set<string>, now: Root, u: string)
    requires Linking(before, wanted, todo, now) && u in todo && u in wanted && HOME !in wanted
    ensures Lookup(now, u) == Lookup(before, u)
    ensures Linking(before, wanted, todo - {u}, AfterLinking(now, u))
    ensures u in Missing(before, wanted) <==> AfterLinking(now, u) != now
  {
    var next := AfterLinking(now, u);
    assert Lookup(now, u) == Lookup(before, u);
    assert u in now <==> Lookup(now, u).Some?;
    assert u in before <==> Lookup(before, u).Some?;
    assert Lookup(next, u) == LinkedAt(before, wanted, u);
    forall n | n != u ensures Lookup(next, n) == Lookup(now, n) {
    }
    if LinkedAt(before, wanted, u) == Lookup(before, u) {
      SameLookups(next, now);
    }
  }

  lemma UnlinkStep(before: Root, wanted: set<string>, todo: set<string>, now: Root, u: string)
    requires Unlinking(before, wanted, todo, now) && u in todo && HOME !in wanted
    ensures u !in wanted ==> Lookup(now, u) == Lookup(before, u)
    ensures var next := if u !in wanted && u != HOME && HasLink(now, u)
                        then now[u := now[u].(slot := Absent)] else now;
            Unlinking(before, wanted, todo - {u}, next)
    ensures u in Dropped(before, wanted) <==> u !in wanted && u != HOME && HasLink(now, u)
  {
    var next := if u !in wanted && u != HOME && HasLink(now, u) then now[u := now[u].(slot := Absent)] else now;
    if u !in wanted {
      assert Lookup(now, u) == Lookup(before, u);
      assert u in now <==> Lookup(now, u).Some?;
      assert u in before <==> Lookup(before, u).Some?;
    }
    forall n | n != u ensures Lookup(next, n) == Lookup(now, n) {
    }
  }

  lemma LinkingLeavesForeign(before: Root, wanted: set<string>, todo: set<string>, cards: Files, now: Root)
    requires Linking(before, wanted, todo, now) && HOME !in wanted
    ensures OnTheWay(before, wanted, cards, now)
  {
    KeepsHome(before, now);
    forall n | n != HOME
      ensures n in now <==> Lookup(now, n).Some?
      ensures n in now ==> Lookup(now, n) == Some(now[n])
    {
    }
  }

  lemma UnlinkingLeavesForeign(before: Root, wanted: set<string>, todo: set<string>, cards: Files, now: Root)
    requires Unlinking(before, wanted, todo, now) && HOME !in wanted
    ensures OnTheWay(before, wanted, cards, now)
  {
    KeepsHome(before, now);
    forall n | n != HOME
      ensures n in now <==> Lookup(now, n).Some?
      ensures n in now ==> Lookup(now, n) == Some(now[n])
    {
    }
  }

  lemma KeepsHome(before: Root, now: Root)
    requires Lookup(now, HOME) == Lookup(before, HOME)
    ensures Book(now) == Book(before)
    ensures HomeBlocked(now) <==> HomeBlocked(before)
  {
    assert HOME in now <==> Lookup(now, HOME).Some?;
    assert HOME in before <==> Lookup(before, HOME).Some?;
  }

  lemma OnTheWayTransitive(a: Root, wanted: set<string>, cards: Files, b: Root, c: Root)
    requires OnTheWay(a, wanted, cards, b) && OnTheWay(b, wanted, cards, c)
    ensures OnTheWay(a, wanted, cards, c)
  {
    forall n | n != HOME ensures LeavesForeignAt(a, wanted, c, n) {
      assert LeavesForeignAt(a, wanted, b, n) && LeavesForeignAt(b, wanted, c, n);
    }
    if HomeBlocked(a) {
      KeepsHome(a, b);
    }
  }

  /** Whatever a run was doing when it stopped, it did not change which homes are plain files. */
  lemma OnTheWayBlocks(before: Root, wanted: set<string>, cards: Files, now: Root, next: set<string>)
    requires OnTheWay(before, wanted, cards, now) && HOME !in next
    ensures Blocked(now, next) <==> Blocked(before, next)
    ensures HomeBlocked(now) <==> HomeBlocked(before)
  {
    forall u | u in next ensures (u in now && now[u].File?) <==> (u in before && before[u].File?) {
      assert LeavesForeignAt(before, wanted, now, u);
    }
    if HomeBlocked(before) {
      KeepsHome(before, now);
    }
  }

  // ---------------------------------------------------------------- the book between rounds

  predicate HasBook(root: Root) {
    HOME in root && root[HOME].Dir? && root[HOME].people.Some?
  }

  /** `book.mkdir(parents=True, exist_ok=True)` */
  function WithHome(root: Root): (r: Root)
    requires !HomeBlocked(root)
    ensures HasBook(r) && Book(r) == Book(root)
    ensures HasBook(root) ==> r == root
  {
    if HOME !in root then root[HOME := Dir(Absent, Some(map[]), map[])]
    else if root[HOME].people.None? then root[HOME := root[HOME].(people := Some(map[]))]
    else root
  }

  /** Its first step, when nothing is there: the home, without the book. */
  function WithEmptyHome(root: Root): Root {
    if HOME in root then root else root[HOME := Dir(Absent, None, map[])]
  }

  function WithBook(root: Root, book: Files): (r: Root)
    requires HasBook(root)
    ensures HasBook(r) && Book(r) == book
  {
    root[HOME := root[HOME].(people := Some(book))]
  }

  lemma WithBookOnTheWay(before: Root, wanted: set<string>, cards: Files, now: Root, book: Files)
    requires OnTheWay(before, wanted, cards, now) && HasBook(now)
    requires CardsWhole(Book(before), cards, book)
    ensures OnTheWay(before, wanted, cards, WithBook(now, book))
  {
    forall n | n != HOME ensures LeavesForeignAt(before, wanted, WithBook(now, book), n) {
      assert LeavesForeignAt(before, wanted, now, n);
    }
    if HomeBlocked(before) {
      KeepsHome(before, now);
    }
  }

  lemma WithHomeOnTheWay(before: Root, wanted: set<string>, cards: Files)
    requires !HomeBlocked(before)
    ensures OnTheWay(before, wanted, cards, WithHome(before))
    ensures OnTheWay(before, wanted, cards, WithEmptyHome(before))
    ensures WithHome(WithEmptyHome(before)) == WithHome(before)
  {
  }

  /** The book after an atomic replacement: the temporary file is gone again. */
  function Replaced(book: Files, name: string, data: Data): Files {
    (book - {Tmp(name)})[name := data]
  }

  /** While cards are copied: those in `todo` are still what they were. */
  ghost predicate Copying(before: Files, cards: Files, todo: set<string>, now: Files) {
    forall n :: IsCard(n) ==>
      Lookup(now, n) == if n in cards && n !in todo then Some(cards[n]) else Lookup(before, n)
  }

  /** While leftovers are removed: those in `paths` are still there. */
  ghost predicate Pruning(before: Files, cards: Files, paths: set<string>, now: Files) {
    && (forall n :: IsCard(n) ==>
         Lookup(now, n) == if n in cards then Some(cards[n]) else if n in paths then Lookup(before, n) else None)
    && forall n :: n in paths ==> IsCard(n) && (n in cards || n in before)
  }

  /** `book.glob('*.vcf')` */
  function CardNames(book: Files): set<string> {
    set n | n in book && IsCard(n)
  }

  lemma CopyStep(before: Files, cards: Files, todo: set<string>, now: Files, name: string)
    requires Copying(before, cards, todo, now) && name in todo && name in cards && IsCard(name)
    ensures Lookup(now, name) == Lookup(before, name)
    ensures Lookup(now, name) == Some(cards[name]) ==> Copying(before, cards, todo - {name}, now)
    ensures Copying(before, cards, todo - {name}, Replaced(now, name, cards[name]))
    ensures CardsWhole(before, cards, Replaced(now, name, cards[name]))
    ensures CardsWhole(before, cards, now[Tmp(name) := cards[name]])
  {
    var next := Replaced(now, name, cards[name]);
    forall n | IsCard(n) ensures Lookup(next, n) == if n == name then Some(cards[n]) else Lookup(now, n) {
    }
  }

  lemma PruneStart(before: Files, cards: Files, now: Files)
    requires Copying(before, cards, {}, now)
    ensures Pruning(before, cards, CardNames(now), now) && Leftover(before, cards) <= CardNames(now)
  {
    assert forall n :: n in now <==> Lookup(now, n).Some?;
    assert forall n :: n in before <==> Lookup(before, n).Some?;
  }

  lemma PruneStep(before: Files, cards: Files, paths: set<string>, now: Files, name: string)
    requires Pruning(before, cards, paths, now) && name in paths
    ensures name in Leftover(before, cards) <==> name !in cards
    ensures name in cards ==> Pruning(before, cards, paths - {name}, now)
    ensures name !in cards ==> Pruning(before, cards, paths - {name}, now - {name})
    ensures name !in cards ==> CardsWhole(before, cards, now - {name})
  {
    forall n | n != name ensures Lookup(now - {name}, n) == Lookup(now, n) {
    }
    assert Lookup(now - {name}, name) == None;
  }

  lemma PruneEnd(before: Files, cards: Files, now: Files)
    requires Pruning(before, cards, {}, now) && forall n :: n in cards ==> IsCard(n)
    ensures CardsOf(now) == cards
  {
    forall n ensures Lookup(CardsOf(now), n) == Lookup(cards, n) {
      assert n in now <==> Lookup(now, n).Some?;
      if IsCard(n) {
        assert Lookup(now, n) == Lookup(cards, n);
      }
    }
    SameLookups(CardsOf(now), cards);
  }

  // ---------------------------------------------------------------- withdrawing

  /** What `withdraw` leaves under `name`, the book's home apart. */
  function WithdrawnAt(root: Root, name: string): Option<Node> {
    if HasLink(root, name) then Some(root[name].(slot := Absent)) else Lookup(root, name)
  }

  ghost predicate Withdrawn(before: Root, after: Root) {
    && (forall n :: n != HOME ==> Lookup(after, n) == WithdrawnAt(before, n))
    && (HOME in before && before[HOME].Dir? ==> HOME !in after)
    && (!(HOME in before && before[HOME].Dir?) ==> Lookup(after, HOME) == Lookup(before, HOME))
  }

  ghost predicate Withdrawing(before: Root, todo: set<string>, now: Root) {
    forall n :: Lookup(now, n) == if n in todo then Lookup(before, n) else WithdrawnAt(before, n)
  }

  lemma WithdrawStep(before: Root, todo: set<string>, now: Root, name: string)
    requires Withdrawing(before, todo, now) && name in todo
    ensures HasLink(now, name) <==> HasLink(before, name)
    ensures !HasLink(now, name) ==> Withdrawing(before, todo - {name}, now)
    ensures HasLink(now, name) ==> Withdrawing(before, todo - {name}, now[name := now[name].(slot := Absent)])
  {
    assert Lookup(now, name) == Lookup(before, name);
    assert name in now <==> Lookup(now, name).Some?;
    assert name in before <==> Lookup(before, name).Some?;
    if HasLink(now, name) {
      var next := now[name := now[name].(slot := Absent)];
      forall n | n != name ensures Lookup(next, n) == Lookup(now, n) {
      }
    }
  }

  lemma WithdrawingLeavesForeign(before: Root, todo: set<string>, now: Root)
    requires Withdrawing(before, todo, now)
    ensures OnTheWay(before, {}, map[], now)
    ensures HOME in now <==> HOME in before
    ensures HOME in now ==> now[HOME].Dir? == before[HOME].Dir?
  {
    forall n
      ensures n in now <==> Lookup(now, n).Some?
      ensures n in before <==> Lookup(before, n).Some?
      ensures n in now ==> Lookup(now, n) == Some(now[n])
    {
    }
  }

  lemma WithdrawnIsClean(before: Root, after: Root)
    requires Withdrawn(before, after)
    ensures Clean(after)
  {
    forall n | n != HOME ensures !HasLink(after, n) {
      assert Lookup(after, n) == WithdrawnAt(before, n);
    }
    assert HOME in after ==> Lookup(after, HOME) == Some(after[HOME]);
  }
}
