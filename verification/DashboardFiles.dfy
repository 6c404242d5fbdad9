/** A group's dashboard files: their names, what a reader sees of them, and how that may change. */
module DashboardFiles {
  import opened Wrappers
  import opened LegacyLineage
  import opened StoredQueries

  /**
    A file either holds the whole of a dashboard, whether or not a read accepts it, or is broken:
    truncated, half written or not a dashboard.
   */
  datatype Content = Whole(dashboard: Dashboard) | Broken

  type Directory = map<string, Content>

  function FinalName(dashboardId: string): string {
    dashboardId + ".json"
  }

  function PendingName(name: string, nonce: string): string {
    "." + name + "." + nonce + ".pending"
  }

  /** What the pattern `*.json` matches. */
  predicate Listed(name: string) {
    |name| >= 5 && name[|name| - 5..] == ".json"
  }

  lemma NamesAreApart(name: string, nonce: string)
    ensures !Listed(PendingName(name, nonce)) && PendingName(name, nonce) != name
  {
    var pending := PendingName(name, nonce);
    var tail := pending[|pending| - 5..];
    assert tail[4] == 'g' && ".json"[4] == 'n';
  }

  lemma FinalNamesAreListed(a: string, b: string)
    ensures Listed(FinalName(a))
    ensures FinalName(a) == FinalName(b) ==> a == b
  {
    assert FinalName(a)[|FinalName(a)| - 5..] == ".json";
    assert FinalName(a)[..|a|] == a && FinalName(b)[..|b|] == b;
  }

  // ----- What a reader sees -----

  /** What a read of each file would answer: a dashboard, in the current vocabulary, or an error. */
  datatype View = View(shown: map<string, Dashboard>, damaged: set<string>)

  /** A read validates what it finds: it answers with the translation of what it accepts. */
  predicate Readable(validator: Validator, content: Content) {
    content.Whole? && Accepts(validator, content.dashboard)
  }

  function Look(validator: Validator, directory: Directory): View {
    View(map name | name in directory && Listed(name) && Readable(validator, directory[name]) ::
           Translate(directory[name].dashboard),
         set name | name in directory && Listed(name) && !Readable(validator, directory[name]))
  }

  predicate NameTaken(view: View, name: string, except: Option<string>) {
    exists f | f in view.shown :: view.shown[f].name == name && Some(view.shown[f].dashboardId) != except
  }

  /** Every readable dashboard sits in the file named for it, and no two share a name. */
  ghost predicate Sound(view: View) {
    && (forall f | f in view.shown :: f == FinalName(view.shown[f].dashboardId))
    && (forall f, g | f in view.shown && g in view.shown && f != g :: view.shown[f].name != view.shown[g].name)
    && view.shown.Keys !! view.damaged
  }

  predicate SameIdentity(a: Dashboard, b: Dashboard) {
    a.dashboardId == b.dashboardId && a.createdBy == b.createdBy && a.createdAt == b.createdAt
  }

  // ----- What reading changes -----

  /** A read answers with a dashboard and writes back what no later read accepts. */
  predicate Doomed(validator: Validator, view: View, file: string) {
    file in view.shown && !Accepts(validator, view.shown[file])
  }

  /** The view once `files` have been read: the doomed ones among them are damaged. */
  function AfterReading(validator: Validator, view: View, files: set<string>): View {
    var lost := set f | f in view.shown && f in files && Doomed(validator, view, f);
    View(view.shown - lost, view.damaged + lost)
  }

  /** The view once everything has been read. */
  function AllRead(validator: Validator, view: View): View {
    AfterReading(validator, view, view.shown.Keys)
  }

  /** `after` is what is left of `before` when some files have been read. */
  ghost predicate Reads(validator: Validator, before: View, after: View) {
    exists files :: after == AfterReading(validator, before, files)
  }

  ghost predicate Settled(validator: Validator, view: View) {
    forall f | f in view.shown :: Accepts(validator, view.shown[f])
  }

  lemma ReadingMore(validator: Validator, view: View, files: set<string>, more: set<string>)
    ensures AfterReading(validator, AfterReading(validator, view, files), more)
            == AfterReading(validator, view, files + more)
  {
    hide Accepts;
    var once, twice := AfterReading(validator, view, files), AfterReading(validator, view, files + more);
    assert AfterReading(validator, once, more).shown == twice.shown;
  }

  /** Reading what is damaged or not there, or nothing, changes nothing. */
  lemma ReadingNothing(validator: Validator, view: View, files: set<string>)
    requires files !! view.shown.Keys
    ensures AfterReading(validator, view, files) == view
  {
    hide Accepts;
  }

  lemma ReadingAll(validator: Validator, view: View, files: set<string>)
    requires view.shown.Keys <= files
    ensures AfterReading(validator, view, files) == AllRead(validator, view)
  {
    hide Accepts;
  }

  lemma ReadingMembers(validator: Validator, view: View, files: set<string>, f: string)
    ensures
      var after := AfterReading(validator, view, files);
      && (f in after.shown <==> f in view.shown && !(f in files && Doomed(validator, view, f)))
      && (f in after.shown ==> after.shown[f] == view.shown[f])
      && (f in after.damaged <==> f in view.damaged || (f in files && Doomed(validator, view, f)))
  {
    hide Accepts;
  }

  /** Reading everything damages nothing if and only if every dashboard shown is accepted. */
  lemma ReadingIsHarmlessExactly(validator: Validator, view: View)
    requires view.shown.Keys !! view.damaged
    ensures AllRead(validator, view) == view <==> Settled(validator, view)
    ensures AllRead(validator, view).damaged == view.damaged <==> Settled(validator, view)
  {
    hide Accepts, FinalName;
    if f :| f in view.shown && !Accepts(validator, view.shown[f]) {
      ReadingMembers(validator, view, view.shown.Keys, f);
    } else {
      assert AllRead(validator, view).shown == view.shown;
    }
  }

  lemma ReadingKeepsSound(validator: Validator, view: View, files: set<string>)
    requires Sound(view)
    ensures Sound(AfterReading(validator, view, files))
  {
    hide Accepts, FinalName;
  }

  // ----- Operations -----

  /** The view with one dashboard put in its file. */
  function Put(view: View, dashboard: Dashboard): View {
    View(view.shown[FinalName(dashboard.dashboardId) := dashboard], view.damaged - {FinalName(dashboard.dashboardId)})
  }

  function Without(view: View, name: string): View {
    View(view.shown - {name}, view.damaged - {name})
  }

  /** `d` is new and its name was free; `read` is the view when it was written. */
  ghost predicate Creates(before: View, read: View, after: View, d: Dashboard) {
    && FinalName(d.dashboardId) !in before.shown && FinalName(d.dashboardId) !in before.damaged
    && !NameTaken(before, d.name, Some(d.dashboardId))
    && after == Put(read, d)
  }

  /**
    `d` takes the place of the dashboard of its id, made by the same person at the same time, and
    its name was free.
   */
  ghost predicate Updates(before: View, read: View, after: View, d: Dashboard) {
    && FinalName(d.dashboardId) in before.shown
    && SameIdentity(d, before.shown[FinalName(d.dashboardId)])
    && !NameTaken(before, d.name, Some(d.dashboardId))
    && after == Put(read, d)
  }

  ghost predicate StepOver(before: View, read: View, after: View) {
    || after == read
    || (exists d :: Creates(before, read, after, d))
    || (exists d :: Updates(before, read, after, d))
    || (exists name :: after == Without(read, name))
  }

  /** One operation's effect on a group, whether it finished, was refused, or crashed on the way. */
  ghost predicate Step(validator: Validator, before: View, after: View) {
    exists files :: StepOver(before, AfterReading(validator, before, files), after)
  }

  lemma PutKeepsSound(before: View, files: set<string>, validator: Validator, d: Dashboard)
    requires Sound(before) && !NameTaken(before, d.name, Some(d.dashboardId))
    ensures Sound(Put(AfterReading(validator, before, files), d))
  {
    var file, read := FinalName(d.dashboardId), AfterReading(validator, before, files);
    hide FinalName, Accepts;
    ReadingKeepsSound(validator, before, files);
    var after := Put(read, d);
    forall f, g | f in after.shown && g in after.shown && f != g ensures after.shown[f].name != after.shown[g].name {
      if f != file && g != file {
        assert f in read.shown && g in read.shown;
      } else {
        var other := if f == file then g else f;
        ReadingMembers(validator, before, files, other);
        assert other in before.shown && other == FinalName(before.shown[other].dashboardId);
      }
    }
  }

  /** What an operation keeps: a file is damaged only if it was, or if it was doomed; who made a dashboard and when. */
  ghost predicate Keeps(validator: Validator, before: View, after: View) {
    && (forall f | f in after.damaged :: f in before.damaged || Doomed(validator, before, f))
    && (forall f | f in before.shown && f in after.shown :: SameIdentity(before.shown[f], after.shown[f]))
  }

  lemma PutKeeps(validator: Validator, before: View, files: set<string>, d: Dashboard)
    requires FinalName(d.dashboardId) in before.shown ==> SameIdentity(before.shown[FinalName(d.dashboardId)], d)
    ensures Keeps(validator, before, Put(AfterReading(validator, before, files), d))
  {
    hide FinalName, Accepts;
    var after := Put(AfterReading(validator, before, files), d);
    forall f ensures f in after.damaged ==> f in before.damaged || Doomed(validator, before, f)
      ensures f in before.shown && f in after.shown ==> SameIdentity(before.shown[f], after.shown[f])
    {
      ReadingMembers(validator, before, files, f);
    }
  }

  lemma WithoutKeeps(validator: Validator, before: View, files: set<string>, name: string)
    requires Sound(before)
    ensures Keeps(validator, before, Without(AfterReading(validator, before, files), name))
    ensures Sound(Without(AfterReading(validator, before, files), name))
  {
    ReadingKeepsSound(validator, before, files);
    hide FinalName, Accepts;
    var after := Without(AfterReading(validator, before, files), name);
    forall f ensures f in after.damaged ==> f in before.damaged || Doomed(validator, before, f)
      ensures f in before.shown && f in after.shown ==> SameIdentity(before.shown[f], after.shown[f])
    {
      ReadingMembers(validator, before, files, f);
    }
  }

  lemma ReadingKeeps(validator: Validator, before: View, files: set<string>)
    ensures Keeps(validator, before, AfterReading(validator, before, files))
  {
    hide Accepts;
    var after := AfterReading(validator, before, files);
    forall f ensures f in after.damaged ==> f in before.damaged || Doomed(validator, before, f)
      ensures f in before.shown && f in after.shown ==> SameIdentity(before.shown[f], after.shown[f])
    {
      ReadingMembers(validator, before, files, f);
    }
  }

  lemma IdentityIsSymmetric(a: Dashboard, b: Dashboard)
    ensures SameIdentity(a, b) <==> SameIdentity(b, a)
  {
  }

  /**
    One operation keeps the names of the readable dashboards distinct and each one's id, creator and
    creation time, and damages no file but one that was doomed before it.
   */
  lemma StepKeepsSound(validator: Validator, before: View, after: View)
    requires Sound(before) && Step(validator, before, after)
    ensures Sound(after) && Keeps(validator, before, after)
  {
    var files :| StepOver(before, AfterReading(validator, before, files), after);
    var read := AfterReading(validator, before, files);
    hide Sound, FinalName, NameTaken, Without, AfterReading, Put, Keeps, SameIdentity, Step;
    if after == read {
      ReadingKeepsSound(validator, before, files);
      ReadingKeeps(validator, before, files);
    } else if d :| Creates(before, read, after, d) {
      PutKeepsSound(before, files, validator, d);
      PutKeeps(validator, before, files, d);
    } else if d :| Updates(before, read, after, d) {
      IdentityIsSymmetric(d, before.shown[FinalName(d.dashboardId)]);
      PutKeepsSound(before, files, validator, d);
      PutKeeps(validator, before, files, d);
    } else if name :| after == Without(read, name) {
      WithoutKeeps(validator, before, files, name);
    }
  }

  /** Doom comes from storing, never from reading: after an operation only what it stored can be newly doomed. */
  lemma DoomIsStored(validator: Validator, before: View, after: View, f: string)
    requires Step(validator, before, after) && Doomed(validator, after, f)
    ensures Doomed(validator, before, f) || f !in before.shown || after.shown[f] != before.shown[f]
  {
    hide Accepts;
  }

  /**
    Over every run of operations, crashes included: names stay pairwise distinct in every state, a
    dashboard keeps its id, its creator and its creation time for as long as it is there, and a
    readable file turns broken only if it was doomed at some point; where nothing ever is, none does.
   */
  lemma {:induction false} EveryRunStaysSound(validator: Validator, run: seq<View>, i: nat, j: nat)
    requires i <= j < |run|
    requires Sound(run[i]) && forall k | i <= k < j :: Step(validator, run[k], run[k + 1])
    ensures Sound(run[j])
    ensures forall f | f in run[j].damaged ::
              f in run[i].damaged || exists k | i <= k < j :: Doomed(validator, run[k], f)
    ensures (forall k | i <= k < j :: Settled(validator, run[k])) ==> run[j].damaged <= run[i].damaged
    ensures forall f | (forall k | i <= k <= j :: f in run[k].shown) :: SameIdentity(run[i].shown[f], run[j].shown[f])
    decreases j - i
  {
    hide Sound, Step, SameIdentity, Accepts;
    if i < j {
      EveryRunStaysSound(validator, run, i, j - 1);
      assert Step(validator, run[j - 1], run[j - 1 + 1]);
      StepKeepsSound(validator, run[j - 1], run[j]);
      forall f | (forall k | i <= k <= j :: f in run[k].shown) ensures SameIdentity(run[i].shown[f], run[j].shown[f]) {
        assert f in run[j - 1].shown && f in run[j].shown;
        IdentityIsTransitive(run[i].shown[f], run[j - 1].shown[f], run[j].shown[f]);
      }
    } else {
      forall f | f in run[i].shown ensures SameIdentity(run[i].shown[f], run[i].shown[f]) {
        IdentityIsTransitive(run[i].shown[f], run[i].shown[f], run[i].shown[f]);
      }
    }
  }

  lemma IdentityIsTransitive(a: Dashboard, b: Dashboard, c: Dashboard)
    ensures SameIdentity(a, a)
    ensures SameIdentity(a, b) && SameIdentity(b, c) ==> SameIdentity(a, c)
  {
  }

  lemma LookMembers(validator: Validator, directory: Directory, name: string)
    requires Listed(name)
    ensures
      var view := Look(validator, directory);
      && (name in directory <==> name in view.shown || name in view.damaged)
      && (name in view.damaged <==> name in directory && !Readable(validator, directory[name]))
      && (name in view.shown <==> name in directory && Readable(validator, directory[name]))
      && (name in view.shown ==> view.shown[name] == Translate(directory[name].dashboard))
  {
    hide Accepts, Translate;
  }

  ghost predicate NoneTwice(files: seq<string>) {
    forall i, j | 0 <= i < j < |files| :: files[i] != files[j]
  }

  /** `files` names every dashboard file of the group once. */
  ghost predicate IsListing(view: View, files: seq<string>) {
    (forall f :: f in files <==> f in view.shown || f in view.damaged) && NoneTwice(files)
  }

  // ----- Replacing a file in one step -----

  /** The directory after a pending file took the place of `name`. */
  function Replaced(directory: Directory, name: string, pending: string, dashboard: Dashboard): Directory {
    (directory - {pending})[name := Whole(dashboard)]
  }

  /** A crash in the middle of a replacement: the old version or the new one, and perhaps a pending file. */
  ghost predicate HalfWay(before: Directory, after: Directory, name: string, pending: string, dashboard: Dashboard) {
    || after - {pending} == before - {pending}
    || after == Replaced(before, name, pending, dashboard)
  }

  lemma WriteStages(before: Directory, name: string, pending: string, dashboard: Dashboard)
    requires pending != name
    ensures
      var open := before[pending := Broken];
      var written := open[pending := Whole(dashboard)];
      && open - {pending} == before - {pending} && written - {pending} == before - {pending}
      && (written - {pending})[name := written[pending]] == Replaced(before, name, pending, dashboard)
      && Replaced(before, name, pending, dashboard) - {pending} == Replaced(before, name, pending, dashboard)
  {
  }

  /** The view with `dashboard` in the file `name`, as a read then finds it. */
  function Written(validator: Validator, view: View, name: string, dashboard: Dashboard): View {
    if Accepts(validator, dashboard)
    then View(view.shown[name := Translate(dashboard)], view.damaged - {name})
    else View(view.shown - {name}, view.damaged + {name})
  }

  /** Pending files are never seen, and a replacement is seen whole or not at all. */
  lemma ReplacementIsAtomic(validator: Validator, before: Directory, after: Directory, name: string, nonce: string,
                            dashboard: Dashboard)
    requires HalfWay(before, after, name, PendingName(name, nonce), dashboard) && Listed(name)
    ensures
      var view := Look(validator, before);
      var written := Written(validator, view, name, dashboard);
      && (Look(validator, after) == view || Look(validator, after) == written)
      && (after == Replaced(before, name, PendingName(name, nonce), dashboard) ==> Look(validator, after) == written)
      && (name in before ==> name in after && (after[name] == before[name] || after[name] == Whole(dashboard)))
  {
    hide Accepts, Translate, Listed, PendingName, Written, Look;
    var pending := PendingName(name, nonce);
    NamesAreApart(name, nonce);
    if after - {pending} == before - {pending} {
      forall f | f != pending ensures f in after <==> f in before
        ensures f in before ==> after[f] == before[f] {
        assert f in after - {pending} <==> f in before - {pending};
      }
      SameFilesLookSame(validator, before, after, pending);
    }
    if after == Replaced(before, name, pending, dashboard) {
      ReplacedLooksWritten(validator, before, name, pending, dashboard);
    }
  }

  lemma SameFilesLookSame(validator: Validator, before: Directory, after: Directory, pending: string)
    requires !Listed(pending)
    requires forall f | f != pending :: f in after <==> f in before
    requires forall f | f != pending && f in before :: after[f] == before[f]
    ensures Look(validator, after) == Look(validator, before)
  {
    hide Accepts, Translate, Listed;
    assert Look(validator, after).shown.Keys == Look(validator, before).shown.Keys;
  }

  lemma ReplacedLooksWritten(validator: Validator, before: Directory, name: string, pending: string,
                             dashboard: Dashboard)
    requires !Listed(pending) && Listed(name) && pending != name
    ensures
      Look(validator, Replaced(before, name, pending, dashboard))
      == Written(validator, Look(validator, before), name, dashboard)
  {
    hide Accepts, Translate, Listed;
    var after := Replaced(before, name, pending, dashboard);
    var written := Written(validator, Look(validator, before), name, dashboard);
    assert Look(validator, after).shown.Keys == written.shown.Keys;
    assert Look(validator, after).shown == written.shown;
  }

  /** A read that writes a translation back leaves the view as reading that file leaves it. */
  lemma WriteBackIsRead(validator: Validator, directory: Directory, name: string, stored: Dashboard)
    requires Listed(name) && name in directory && directory[name] == Whole(stored) && Accepts(validator, stored)
    ensures
      var view := Look(validator, directory);
      && Written(validator, view, name, Translate(stored)) == AfterReading(validator, view, {name})
      && (Translate(stored) == stored ==> AfterReading(validator, view, {name}) == view)
  {
    LookMembers(validator, directory, name);
    TranslationIsIdempotent(stored);
    hide Accepts, Translate, Look, Listed;
    var view := Look(validator, directory);
    var read := AfterReading(validator, view, {name});
    if Accepts(validator, Translate(stored)) {
      assert read.shown == view.shown;
    } else {
      assert read.shown == view.shown - {name};
    }
  }

  /**
    The exact condition, on the files. Reading everything, as a listing does, leaves every file
    readable that was if and only if no readable file has a chart that groups by two keys which become
    one column.
   */
  lemma ReadingDamagesExactly(validator: Validator, directory: Directory)
    requires ReadsNumerals(validator.reading)
    ensures
      var view := Look(validator, directory);
      AllRead(validator, view).damaged == view.damaged
      <==> forall f | f in directory && Listed(f) && Readable(validator, directory[f]) ::
             !MergesKeys(directory[f].dashboard.charts)
  {
    var view := Look(validator, directory);
    forall f | f in directory && Listed(f) && Readable(validator, directory[f])
      ensures f in view.shown
      ensures Accepts(validator, view.shown[f]) <==> !MergesKeys(directory[f].dashboard.charts)
    {
      LookMembers(validator, directory, f);
      AcceptedAfterTranslation(validator, directory[f].dashboard);
    }
    SeenFiles(validator, directory);
    hide Look, Accepts, Listed, MergesKeys, ReadsNumerals, Translate, AfterReading;
    ReadingIsHarmlessExactly(validator, view);
  }

  lemma SeenFiles(validator: Validator, directory: Directory)
    ensures
      var view := Look(validator, directory);
      && view.shown.Keys !! view.damaged
      && forall f | f in view.shown :: f in directory && Listed(f) && Readable(validator, directory[f])
  {
    hide Accepts, Translate, Listed;
  }

  /**
    The failing input. A file with a chart that sets the two old counts side by side is shown before
    it is read, and damaged once it has been.
   */
  lemma ReadBreaksSideBySide(validator: Validator, name: string, rest: string)
    requires ReadsNumerals(validator.reading) && validator.acceptsRest(rest) && Listed(name)
    ensures
      var before := Look(validator, map[name := Whole(SideBySide(rest))]);
      var after := Look(validator, map[name := Whole(Translate(SideBySide(rest)))]);
      && name in before.shown && name in after.damaged
      && after == AllRead(validator, before) && !Settled(validator, before)
      && NameTaken(before, before.shown[name].name, None) && !NameTaken(after, before.shown[name].name, None)
  {
    var stored := SideBySide(rest);
    var first, second := map[name := Whole(stored)], map[name := Whole(Translate(stored))];
    SideBySideIsLost(validator, rest);
    hide SideBySide, ReadsNumerals, Accepts, Translate, Listed;
    LookMembers(validator, first, name);
    LookMembers(validator, second, name);
    assert Look(validator, second).shown == map[] && Look(validator, first).shown.Keys == {name};
    assert AllRead(validator, Look(validator, first)).shown == map[];
  }
}
