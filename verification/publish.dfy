/**
 The publisher's half of the contact directory: one card file per person below
 `<runtime>/directory/people/`, and a manifest written last.
 */
module DirectoryPublish {
  import opened Wrappers
  import opened Utf8
  import VCard

  type Data = seq<byte>
  type Files = map<string, Data>

  /** What `manifest.json` says. `props` stands for the bytes the mirror derives from the name;
      `sha` is a hexadecimal digest. */
  type Digest = s: string | s != "off"
  datatype Manifest = Manifest(enabled: bool, props: Data, users: seq<string>, sha: Digest)
  datatype Source = Source(files: Files, manifest: Option<Manifest>)

  /** `glob('*.vcf')` */
  predicate IsCard(name: string) {
    |name| >= 4 && name[|name| - 4..] == ".vcf"
  }

  function CardsOf(files: Files): Files {
    map n | n in files && IsCard(n) :: files[n]
  }

  function FileName(e: VCard.Entry): (name: string)
    ensures IsCard(name)
  {
    e.id + ".vcf"
  }

  /** `{e.filename: e.vcard() for e in found}`, as the bytes that are written. */
  function Wanted(found: seq<VCard.Entry>): (wanted: Files)
    ensures forall n :: n in wanted ==> IsCard(n)
  {
    if found == [] then map[]
    else
      var e := found[|found| - 1];
      Wanted(found[..|found| - 1])[FileName(e) := Card(e)]
  }

  function Card(e: VCard.Entry): Data {
    Encode(VCard.Vcard(e))
  }

  /** Every listed person has their own card, when their ids differ. */
  lemma {:induction false} WantedHasCard(found: seq<VCard.Entry>, i: nat)
    requires i < |found|
    requires forall j, k :: 0 <= j < k < |found| ==> found[j].id != found[k].id
    ensures Lookup(Wanted(found), found[i].id + ".vcf") == Some(Encode(VCard.Vcard(found[i])))
  {
    var last := |found| - 1;
    LookupUpdated(Wanted(found[..last]), FileName(found[last]), Card(found[last]), FileName(found[i]));
    if i < last {
      WantedHasCard(found[..last], i);
      FileNamesDiffer(found[i], found[last]);
    }
  }

  lemma FileNamesDiffer(e: VCard.Entry, f: VCard.Entry)
    requires e.id != f.id
    ensures FileName(e) != FileName(f)
  {
    assert FileName(e)[..|FileName(e)| - 4] == e.id;
    assert FileName(f)[..|FileName(f)| - 4] == f.id;
  }

  /** What `publish` leaves under name `n`. */
  function PublishedAt(files: Files, wanted: Files, n: string): Option<Data> {
    if n in wanted then Some(wanted[n])
    else if IsCard(n) then None
    else Lookup(files, n)
  }

  ghost predicate Published(before: Files, wanted: Files, after: Files) {
    forall n :: Lookup(after, n) == PublishedAt(before, wanted, n)
  }

  /** Somewhere inside a run: every file is either what it was or what it will be. */
  ghost predicate PartlyPublished(before: Files, wanted: Files, now: Files) {
    forall n :: Lookup(now, n) == Lookup(before, n) || Lookup(now, n) == PublishedAt(before, wanted, n)
  }

  function Stale(files: Files, wanted: Files): set<string> {
    set n | n in wanted && Lookup(files, n) != Some(wanted[n])
  }

  function Leftover(files: Files, wanted: Files): set<string> {
    set n | n in files && IsCard(n) && n !in wanted
  }

  /** Between the loop rounds: the cards in `todo` are still what they were. */
  ghost predicate Written(before: Files, wanted: Files, todo: set<string>, now: Files) {
    forall n :: Lookup(now, n) == if n in wanted && n !in todo then Some(wanted[n]) else Lookup(before, n)
  }

  /** Between the loop rounds: the unwanted cards in `paths` are still there. */
  ghost predicate Cleaned(before: Files, wanted: Files, paths: set<string>, now: Files) {
    && (forall n :: Lookup(now, n) == if n in paths then (if n in wanted then Some(wanted[n]) else Lookup(before, n))
                                     else PublishedAt(before, wanted, n))
    && forall n :: n in paths ==> IsCard(n) && (n in wanted || n in before)
  }

  lemma WriteStep(before: Files, wanted: Files, todo: set<string>, now: Files, name: string)
    requires Written(before, wanted, todo, now) && name in todo && name in wanted
    ensures Lookup(now, name) == Lookup(before, name)
    ensures Written(before, wanted, todo - {name}, now[name := wanted[name]])
    ensures PartlyPublished(before, wanted, now[name := wanted[name]])
  {
    var next := now[name := wanted[name]];
    forall n
      ensures Lookup(next, n) == if n in wanted && n !in todo - {name} then Some(wanted[n]) else Lookup(before, n)
    {
      assert Lookup(next, n) == if n == name then Some(wanted[n]) else Lookup(now, n);
    }
  }

  lemma WrittenCards(before: Files, wanted: Files, now: Files)
    requires Written(before, wanted, {}, now)
    ensures var paths := set n | n in now && IsCard(n);
            Cleaned(before, wanted, paths, now) && Leftover(before, wanted) <= paths
  {
    assert forall n :: n in now <==> Lookup(now, n).Some?;
    assert forall n :: n in before <==> Lookup(before, n).Some?;
  }

  lemma CleanStep(before: Files, wanted: Files, paths: set<string>, now: Files, name: string)
    requires Cleaned(before, wanted, paths, now) && name in paths
    ensures var next := if name in wanted then now else now - {name};
            Cleaned(before, wanted, paths - {name}, next) && PartlyPublished(before, wanted, next)
  {
    var next := if name in wanted then now else now - {name};
    forall n ensures Lookup(next, n) == if n == name then PublishedAt(before, wanted, n) else Lookup(now, n) {
    }
  }

  class Publisher {
    var files: Files
    var manifest: Option<Manifest>
    /** Every state the directory was in: what a crash may leave behind. */
    ghost var history: seq<Source>

    constructor (files: Files, manifest: Option<Manifest>)
      ensures this.files == files && this.manifest == manifest && history == []
    {
      this.files, this.manifest, history := files, manifest, [];
    }

    /** Since point `k` of the history every state was on the way, under manifest `m`. */
    ghost predicate OnTheWaySince(k: nat, before: Files, wanted: Files, m: Option<Manifest>)
      reads this
    {
      && k <= |history|
      && forall i :: k <= i < |history| ==>
           PartlyPublished(before, wanted, history[i].files) && history[i].manifest == m
    }

    /** One atomic change of the card files (a rename, or an unlink). */
    method Become(next: Files, ghost k: nat, ghost before: Files, ghost wanted: Files)
      requires OnTheWaySince(k, before, wanted, manifest) && PartlyPublished(before, wanted, next)
      modifies this
      ensures files == next && manifest == old(manifest)
      ensures history == old(history) + [Source(files, manifest)]
      ensures OnTheWaySince(k, before, wanted, manifest)
    {
      files := next;
      history := history + [Source(files, manifest)];
    }

    /** Write every wanted card that differs. */
    method WriteStale(wanted: Files) returns (written: nat)
      modifies this
      ensures Written(old(files), wanted, {}, files)
      ensures manifest == old(manifest) && written == |Stale(old(files), wanted)|
      ensures old(history) <= history && OnTheWaySince(|old(history)|, old(files), wanted, manifest)
    {
      written := 0;
      ghost var stale := Stale(files, wanted);
      var todo := wanted.Keys;
      CountEnds(stale, todo);
      while todo != {}
        invariant todo <= wanted.Keys && manifest == old(manifest)
        invariant Written(old(files), wanted, todo, files)
        invariant written == Count(stale, todo)
        invariant old(history) <= history && OnTheWaySince(|old(history)|, old(files), wanted, manifest)
      {
        var name :| name in todo;
        CountStep(stale, todo, name);
        var changed := WriteCard(name, wanted, |old(history)|, old(files), todo);
        written := written + if changed then 1 else 0;
        todo := todo - {name};
      }
    }

    /** One round of the writing loop. */
    method WriteCard(name: string, wanted: Files, ghost k: nat, ghost before: Files, ghost todo: set<string>)
      returns (changed: bool)
      requires name in todo && name in wanted && Written(before, wanted, todo, files)
      requires OnTheWaySince(k, before, wanted, manifest)
      modifies this
      ensures Written(before, wanted, todo - {name}, files) && manifest == old(manifest)
      ensures old(history) <= history && OnTheWaySince(k, before, wanted, manifest)
      ensures changed <==> name in Stale(before, wanted)
    {
      WriteStep(before, wanted, todo, files, name);
      changed := !(name in files && files[name] == wanted[name]);
      if changed {
        Become(files[name := wanted[name]], k, before, wanted);
      } else {
        assert files[name := wanted[name]] == files;
      }
    }

    /** Remove the cards that are not wanted (any more). */
    method RemoveLeftover(wanted: Files, ghost before: Files) returns (removed: nat)
      requires Written(before, wanted, {}, files)
      modifies this
      ensures Published(before, wanted, files)
      ensures manifest == old(manifest) && removed == |Leftover(before, wanted)|
      ensures old(history) <= history && OnTheWaySince(|old(history)|, before, wanted, manifest)
    {
      removed := 0;
      ghost var leftover := Leftover(before, wanted);
      var paths := set n | n in files && IsCard(n);
      WrittenCards(before, wanted, files);
      CountEnds(leftover, paths);
      while paths != {}
        invariant manifest == old(manifest)
        invariant Cleaned(before, wanted, paths, files)
        invariant removed == Count(leftover, paths)
        invariant old(history) <= history && OnTheWaySince(|old(history)|, before, wanted, manifest)
      {
        var name :| name in paths;
        CountStep(leftover, paths, name);
        CleanStep(before, wanted, paths, files, name);
        if name !in wanted {
          Become(files - {name}, |old(history)|, before, wanted);
          removed := removed + 1;
        }
        paths := paths - {name};
      }
    }

    /** `publish()`: write what differs, remove what is not wanted, then the manifest. The counts
        are exact, and until the last step the old manifest is in force. */
    method Publish(wanted: Files, next: Manifest) returns (written: nat, removed: nat)
      modifies this
      ensures Published(old(files), wanted, files)
      ensures manifest == Some(next)
      ensures written == |Stale(old(files), wanted)| && removed == |Leftover(old(files), wanted)|
      ensures old(history) < history && history[|history| - 1] == Source(files, manifest)
      ensures forall i :: |old(history)| <= i < |history| - 1 ==>
                PartlyPublished(old(files), wanted, history[i].files) && history[i].manifest == old(manifest)
    {
      written := WriteStale(wanted);
      removed := RemoveLeftover(wanted, old(files));
      manifest := Some(next);
      history := history + [Source(files, manifest)];
    }
  }

  /** After a completed publish another one has nothing to write or remove. */
  lemma PublishAgain(before: Files, wanted: Files, after: Files, again: Files)
    requires Published(before, wanted, after)
    ensures Stale(after, wanted) == {} && Leftover(after, wanted) == {}
    ensures Published(after, wanted, again) ==> again == after
  {
    forall n ensures Lookup(after, n) == PublishedAt(after, wanted, n) == PublishedAt(before, wanted, n) {
      assert n in after <==> Lookup(after, n).Some?;
    }
    assert forall n :: n in after <==> Lookup(after, n).Some?;
    if Published(after, wanted, again) {
      forall n ensures Lookup(again, n) == Lookup(after, n) {
      }
      SameLookups(again, after);
    }
  }

  /** Files that are no cards stay as they are. */
  lemma OtherFilesStay(before: Files, wanted: Files, after: Files, name: string)
    requires Published(before, wanted, after) && forall n :: n in wanted ==> IsCard(n)
    requires |name| < 4 || name[|name| - 4..] != ".vcf"
    ensures Lookup(after, name) == Lookup(before, name)
  {
  }

  /** The published directory holds exactly the wanted cards, whatever was there. */
  lemma HoldsTheWanted(before: Files, wanted: Files, after: Files)
    requires Published(before, wanted, after) && forall n :: n in wanted ==> IsCard(n)
    ensures CardsOf(after) == wanted
  {
    forall n ensures Lookup(CardsOf(after), n) == Lookup(wanted, n) {
      assert Lookup(after, n) == PublishedAt(before, wanted, n);
      assert n in after <==> Lookup(after, n).Some?;
    }
    SameLookups(CardsOf(after), wanted);
  }

  /** A crash anywhere inside a publish does not matter to the next one. */
  lemma PublishAfterCrash(before: Files, wanted: Files, crashed: Files, next: Files, after: Files)
    requires PartlyPublished(before, wanted, crashed) && Published(crashed, next, after)
    requires (forall n :: n in wanted ==> IsCard(n)) && (forall n :: n in next ==> IsCard(n))
    ensures Published(before, next, after)
  {
    forall n ensures Lookup(after, n) == PublishedAt(before, next, n) {
      assert Lookup(crashed, n) == Lookup(before, n) || Lookup(crashed, n) == PublishedAt(before, wanted, n);
      assert Lookup(after, n) == PublishedAt(crashed, next, n);
    }
  }
}
