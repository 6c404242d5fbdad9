/**
  The store of dashboards: a directory per group, and in it a file per dashboard.

  Every operation is told how many file steps the process lives for, so that it may crash between
  any two of them; the next operation then finds whatever files were left. The store's lock makes
  operations take turns, so one method call is one operation.
 */
module DashboardStore {
  import opened Wrappers
  import opened Sorting
  import opened LegacyLineage
  import opened DashboardFiles
  import opened StoredQueries
  import TextOrder

  datatype DashboardContent = DashboardContent(name: string, description: string, filters: seq<DimensionFilter>,
                                       charts: seq<ChartSpec>)

  datatype Outcome<+T> = Done(value: T) | DashboardNameTaken(name: string) | Unreadable | Crashed

  /** What is left of the process's life after a step, if it survived it. */
  type Life = nat

  datatype Summary = Summary(dashboardId: string, name: string, description: string, chartCount: nat,
                             createdBy: string, createdAt: int, updatedAt: int)

  function Summarize(d: Dashboard): Summary {
    Summary(d.dashboardId, d.name, d.description, |d.charts|, d.createdBy, d.createdAt, d.updatedAt)
  }

  ghost predicate IsSummaryOf(s: Summary, d: Dashboard) {
    && s.dashboardId == d.dashboardId && s.name == d.name && s.description == d.description
    && s.chartCount == |d.charts|
    && s.createdBy == d.createdBy && s.createdAt == d.createdAt && s.updatedAt == d.updatedAt
  }

  function FromContent(content: DashboardContent, dashboardId: string, createdBy: string, createdAt: int,
        updatedAt: int)
    : Dashboard
  {
    Dashboard(dashboardId, content.name, content.description, content.filters, content.charts,
              createdBy, createdAt, updatedAt)
  }

  predicate ByName(a: Dashboard, b: Dashboard) {
    TextOrder.AtMost(a.name, b.name)
  }

  predicate NewestFirst(a: Dashboard, b: Dashboard) {
    a.updatedAt >= b.updatedAt
  }

  /** Most recently updated first, ties broken by name. */
  predicate ListedBefore(a: Dashboard, b: Dashboard) {
    a.updatedAt > b.updatedAt || (a.updatedAt == b.updatedAt && TextOrder.AtMost(a.name, b.name))
  }

  /** `d` is one of the group's readable dashboards. */
  ghost predicate IsShown(view: View, d: Dashboard) {
    exists f | f in view.shown :: view.shown[f] == d
  }

  /** The readable dashboards among `files`, in that order. */
  function ShownIn(view: View, files: seq<string>): seq<Dashboard> {
    if files == [] then []
    else
      var last := files[|files| - 1];
      ShownIn(view, files[..|files| - 1]) + (if last in view.shown then [view.shown[last]] else [])
  }

  /** Two stable sorts, the second descending, are one sort in listing order. */
  lemma ListingOrder(dashboards: seq<Dashboard>)
    ensures StableSort(StableSort(dashboards, ByName), NewestFirst)
            == StableSort(dashboards, Lexicographic(NewestFirst, ByName))
    ensures SortedBy(StableSort(StableSort(dashboards, ByName), NewestFirst), ListedBefore)
    ensures multiset(StableSort(StableSort(dashboards, ByName), NewestFirst)) == multiset(dashboards)
  {
    TextOrder.AtMostOrders();
    assert TotalPreorder(ByName) && TotalPreorder(NewestFirst);
    SortingTwice(dashboards, NewestFirst, ByName);
    var order := Lexicographic(NewestFirst, ByName);
    SortSorts(dashboards, order);
    SortPermutes(dashboards, order);
    var sorted := StableSort(dashboards, order);
    forall i, j | 0 <= i < j < |sorted| ensures ListedBefore(sorted[i], sorted[j]) {
      assert order(sorted[i], sorted[j]);
    }
  }

  lemma {:induction false} ShownInMembers(view: View, files: seq<string>)
    ensures forall d | d in ShownIn(view, files) :: exists f | f in files :: f in view.shown && view.shown[f] == d
    ensures forall f | f in files && f in view.shown :: view.shown[f] in ShownIn(view, files)
  {
    if files != [] {
      var n := |files| - 1;
      ShownInMembers(view, files[..n]);
      assert files == files[..n] + [files[n]];
    }
  }

  function ShownFiles(view: View, files: seq<string>): set<string> {
    set f | f in files && f in view.shown
  }

  lemma ShownFilesNext(view: View, files: seq<string>, last: string)
    requires NoneTwice(files + [last])
    ensures NoneTwice(files)
    ensures |ShownFiles(view, files + [last])| == |ShownFiles(view, files)| + (if last in view.shown then 1 else 0)
  {
    var all := files + [last];
    forall i | 0 <= i < |files| ensures files[i] != last {
      assert all[i] == files[i] && all[|files|] == last;
    }
    forall i, j | 0 <= i < j < |files| ensures files[i] != files[j] {
      assert all[i] != all[j];
    }
    hide NoneTwice;
    assert ShownFiles(view, all) == if last in view.shown then ShownFiles(view, files) + {last}
            else ShownFiles(view, files);
  }

  lemma {:induction false} ShownInCount(view: View, files: seq<string>)
    requires NoneTwice(files)
    ensures |ShownIn(view, files)| == |ShownFiles(view, files)|
  {
    hide NoneTwice;
    if files != [] {
      var n := |files| - 1;
      assert files == files[..n] + [files[n]];
      ShownFilesNext(view, files[..n], files[n]);
      ShownInCount(view, files[..n]);
    }
  }

  /** A listing read in any order of files gives each readable dashboard once. */
  lemma ListingIsComplete(view: View, files: seq<string>)
    requires IsListing(view, files)
    ensures |ShownIn(view, files)| == |view.shown|
    ensures forall d :: d in ShownIn(view, files) <==> IsShown(view, d)
  {
    ShownInCount(view, files);
    ShownInMembers(view, files);
    assert ShownFiles(view, files) == view.shown.Keys;
  }

  /** Sorted twice, the listing still gives each readable dashboard once, now in listing order. */
  lemma SortedListingIsComplete(view: View, files: seq<string>)
    requires IsListing(view, files)
    ensures
      var listed := StableSort(StableSort(ShownIn(view, files), ByName), NewestFirst);
      && |listed| == |view.shown| && SortedBy(listed, ListedBefore)
      && forall d :: d in listed <==> IsShown(view, d)
  {
    var dashboards := ShownIn(view, files);
    ListingIsComplete(view, files);
    ListingOrder(dashboards);
    hide IsListing, IsShown, ShownIn, StableSort, SortedBy, ListedBefore;
    SortPermutes(dashboards, ByName);
    SortPermutes(StableSort(dashboards, ByName), NewestFirst);
  }

  lemma SortKeepsDistinct(files: seq<string>)
    requires NoneTwice(files)
    ensures NoneTwice(StableSort(files, TextOrder.AtMost))
  {
    var sorted := StableSort(files, TextOrder.AtMost);
    SortPermutes(files, TextOrder.AtMost);
    forall i, j | 0 <= i < j < |sorted| ensures sorted[i] != sorted[j] {
      DistinctCount(files, sorted[i]);
      if sorted[i] == sorted[j] {
        TwiceCounts(sorted, i, j);
      }
    }
  }

  lemma {:induction false} DistinctCount(files: seq<string>, f: string)
    requires NoneTwice(files)
    ensures multiset(files)[f] <= 1
  {
    if files != [] {
      DistinctCount(files[1..], f);
      assert files == [files[0]] + files[1..];
      if files[0] == f {
        assert f !in files[1..];
      }
    }
  }

  lemma TwiceCounts(files: seq<string>, i: nat, j: nat)
    requires i < j < |files| && files[i] == files[j]
    ensures multiset(files)[files[i]] >= 2
  {
    assert files == files[..i] + [files[i]] + files[i + 1..];
    assert files[i + 1..][j - i - 1] == files[j];
    assert files[j] in files[i + 1..];
    assert multiset(files) == multiset(files[..i]) + multiset([files[i]]) + multiset(files[i + 1..]);
  }

  lemma SortedListing(validator: Validator, directory: Directory, found: seq<string>)
    requires forall f :: f in found <==> f in directory && Listed(f)
    requires NoneTwice(found)
    ensures IsListing(Look(validator, directory), StableSort(found, TextOrder.AtMost))
    ensures SortedBy(StableSort(found, TextOrder.AtMost), TextOrder.AtMost)
  {
    hide StableSort, Look, SortedBy, IsListing, Listed, TotalPreorder, NoneTwice;
    TextOrder.AtMostOrders();
    SortSorts(found, TextOrder.AtMost);
    SortPermutes(found, TextOrder.AtMost);
    SortKeepsDistinct(found);
    ListingOf(validator, directory, StableSort(found, TextOrder.AtMost));
  }

  lemma ListingOf(validator: Validator, directory: Directory, files: seq<string>)
    requires forall f :: f in files <==> f in directory && Listed(f)
    requires NoneTwice(files)
    ensures IsListing(Look(validator, directory), files)
  {
    hide Listed, Translate, Accepts;
  }

  lemma LookOfNothing(validator: Validator)
    ensures Look(validator, map[]) == View(map[], {}) && IsListing(View(map[], {}), [])
    ensures AllRead(validator, View(map[], {})) == View(map[], {})
  {
  }

  lemma SeenIsThere(validator: Validator, directory: Directory, file: string)
    ensures
      var view := Look(validator, directory);
      file in view.shown || file in view.damaged ==> file in directory && Listed(file)
  {
    hide Accepts, Translate;
  }

  lemma SoundFile(view: View, file: string)
    requires Sound(view)
    ensures file in view.shown ==> file == FinalName(view.shown[file].dashboardId) && file !in view.damaged
    ensures file in view.damaged ==> file !in view.shown
  {
  }

  lemma LookIsApart(validator: Validator, directory: Directory, file: string)
    ensures file in Look(validator, directory).damaged ==> file !in Look(validator, directory).shown
  {
    hide Accepts, Translate;
  }

  lemma FinalNamesAreApart(view: View, dashboardId: string)
    requires Sound(view)
    ensures FinalName(dashboardId) in view.shown ==> view.shown[FinalName(dashboardId)].dashboardId == dashboardId
  {
    if FinalName(dashboardId) in view.shown {
      FinalNamesAreListed(dashboardId, view.shown[FinalName(dashboardId)].dashboardId);
    }
  }

  lemma ReadingIsAStep(validator: Validator, before: View, after: View)
    requires Reads(validator, before, after)
    ensures Step(validator, before, after)
  {
    hide AfterReading;
    var files :| after == AfterReading(validator, before, files);
    assert StepOver(before, AfterReading(validator, before, files), after);
  }

  lemma CreateIsAStep(validator: Validator, before: View, d: Dashboard)
    requires FinalName(d.dashboardId) !in before.shown && FinalName(d.dashboardId) !in before.damaged
    requires !NameTaken(before, d.name, None)
    ensures Step(validator, before, AllRead(validator, before))
    ensures Step(validator, before, Put(AllRead(validator, before), d))
  {
    hide FinalName, AfterReading, Put;
    var read := AllRead(validator, before);
    assert Creates(before, read, Put(read, d), d);
    assert StepOver(before, AfterReading(validator, before, before.shown.Keys), read);
    assert StepOver(before, AfterReading(validator, before, before.shown.Keys), Put(read, d));
  }

  lemma UpdateIsAStep(validator: Validator, before: View, d: Dashboard)
    requires FinalName(d.dashboardId) in before.shown
    requires SameIdentity(d, before.shown[FinalName(d.dashboardId)])
    requires !NameTaken(before, d.name, Some(d.dashboardId))
    ensures Step(validator, before, AllRead(validator, before))
    ensures Step(validator, before, Put(AllRead(validator, before), d))
  {
    hide FinalName, AfterReading, Put;
    var read := AllRead(validator, before);
    assert Updates(before, read, Put(read, d), d);
    assert StepOver(before, AfterReading(validator, before, before.shown.Keys), read);
    assert StepOver(before, AfterReading(validator, before, before.shown.Keys), Put(read, d));
  }

  lemma LookWithout(validator: Validator, directory: Directory, file: string)
    ensures Look(validator, directory - {file}) == Without(Look(validator, directory), file)
    ensures Step(validator, Look(validator, directory), Without(Look(validator, directory), file))
    ensures Step(validator, Look(validator, directory), Look(validator, directory))
  {
    hide Translate, Accepts;
    var view := Look(validator, directory);
    assert Look(validator, directory - {file}).shown.Keys == Without(view, file).shown.Keys;
    ReadingNothing(validator, view, {});
    assert StepOver(view, AfterReading(validator, view, {}), Without(view, file));
    assert StepOver(view, AfterReading(validator, view, {}), view);
  }

  /** Whether another dashboard has the name does not depend on whether this one was read before. */
  lemma NameTakenByOthers(validator: Validator, view: View, dashboardId: string, name: string)
    requires Sound(view)
    ensures NameTaken(AfterReading(validator, view, {FinalName(dashboardId)}), name, Some(dashboardId))
            <==> NameTaken(view, name, Some(dashboardId))
  {
    var file := FinalName(dashboardId);
    FinalNamesAreApart(view, dashboardId);
    hide FinalName, Accepts;
    var read := AfterReading(validator, view, {file});
    forall f ensures f in view.shown && f != file ==> f in read.shown && read.shown[f] == view.shown[f]
      ensures f in read.shown ==> f in view.shown && read.shown[f] == view.shown[f]
    {
      ReadingMembers(validator, view, {file}, f);
    }
    hide AfterReading;
  }

  /** Reading one file and then all of what is left is reading all. */
  lemma OneThenAll(validator: Validator, view: View, file: string)
    ensures AllRead(validator, AfterReading(validator, view, {file})) == AllRead(validator, view)
  {
    var once := AfterReading(validator, view, {file});
    ReadingMore(validator, view, {file}, once.shown.Keys);
    forall f ensures f in view.shown && Doomed(validator, view, f) ==> f in {file} + once.shown.Keys {
      ReadingMembers(validator, view, {file}, f);
    }
    SameLost(validator, view, {file} + once.shown.Keys);
  }

  lemma SameLost(validator: Validator, view: View, files: set<string>)
    requires forall f | f in view.shown && Doomed(validator, view, f) :: f in files
    ensures AfterReading(validator, view, files) == AllRead(validator, view)
  {
    hide Accepts;
  }

  lemma ReadsMore(validator: Validator, view: View, file: string, after: View)
    requires Reads(validator, AfterReading(validator, view, {file}), after)
    ensures Reads(validator, view, after)
  {
    hide AfterReading;
    var more :| after == AfterReading(validator, AfterReading(validator, view, {file}), more);
    ReadingMore(validator, view, {file}, more);
  }

  function FirstOf(names: seq<string>, i: nat): set<string>
    requires i <= |names|
  {
    set k | 0 <= k < i :: names[k]
  }

  lemma NothingReadYet(validator: Validator, view: View, names: seq<string>)
    ensures AfterReading(validator, view, FirstOf(names, 0)) == view
  {
    ReadingNothing(validator, view, FirstOf(names, 0));
  }

  lemma EverythingRead(validator: Validator, view: View, names: seq<string>)
    requires IsListing(view, names)
    ensures AfterReading(validator, view, FirstOf(names, |names|)) == AllRead(validator, view)
  {
    hide AfterReading;
    forall f | f in view.shown ensures f in FirstOf(names, |names|) {
      assert f in names;
    }
    ReadingAll(validator, view, FirstOf(names, |names|));
  }

  /** The next file in a listing has not been read: it is shown or damaged as it was. */
  lemma NextIsUnread(validator: Validator, view: View, names: seq<string>, i: nat)
    requires IsListing(view, names) && i < |names|
    ensures
      var now := AfterReading(validator, view, FirstOf(names, i));
      && (names[i] in now.shown <==> names[i] in view.shown)
      && (names[i] in view.shown ==> now.shown[names[i]] == view.shown[names[i]])
      && (names[i] in now.damaged <==> names[i] in view.damaged)
      && (names[i] in view.shown || names[i] in view.damaged)
  {
    hide AfterReading, Doomed;
    ReadingMembers(validator, view, FirstOf(names, i), names[i]);
  }

  lemma ReadOneMore(validator: Validator, view: View, names: seq<string>, i: nat)
    requires i < |names|
    ensures AfterReading(validator, AfterReading(validator, view, FirstOf(names, i)), {names[i]})
            == AfterReading(validator, view, FirstOf(names, i + 1))
    ensures Reads(validator, view, AfterReading(validator, view, FirstOf(names, i)))
    ensures Reads(validator, view, AfterReading(validator, view, FirstOf(names, i + 1)))
  {
    hide AfterReading;
    ReadingMore(validator, view, FirstOf(names, i), {names[i]});
    assert FirstOf(names, i) + {names[i]} == FirstOf(names, i + 1);
  }

  lemma OneIsRead(validator: Validator, view: View, file: string)
    ensures Reads(validator, view, view) && Reads(validator, view, AfterReading(validator, view, {file}))
  {
    ReadingNothing(validator, view, {});
    hide AfterReading;
  }

  lemma AllIsRead(validator: Validator, view: View)
    ensures Reads(validator, view, AllRead(validator, view))
  {
    hide AfterReading;
  }

  lemma PutWritten(validator: Validator, view: View, d: Dashboard)
    requires Accepts(validator, d)
    ensures Written(validator, view, FinalName(d.dashboardId), d) == Put(view, Translate(d))
  {
    hide Translate, FinalName, Accepts;
    TranslationKeepsIdentity(d);
  }

  /** A directory scan: each name once, in no particular order. */
  method Enumerate(names: set<string>) returns (found: seq<string>)
    ensures forall f :: f in found <==> f in names
    ensures NoneTwice(found)
  {
    var rest := names;
    found := [];
    while rest != {}
      invariant rest <= names
      invariant forall f :: f in found <==> f in names && f !in rest
      invariant NoneTwice(found)
      decreases |rest|
    {
      var f :| f in rest;
      found := found + [f];
      rest := rest - {f};
    }
  }

  class FilesystemDashboardStore {
    const validator: Validator
    /** The groups whose directory exists, and the files in it. */
    var groups: map<string, Directory>

    constructor (validator: Validator, groups: map<string, Directory>)
      ensures this.validator == validator && this.groups == groups
    {
      this.validator, this.groups := validator, groups;
    }

    function DirectoryOf(group: string): Directory
      reads this
    {
      if group in groups then groups[group] else map[]
    }

    function ViewOf(group: string): View
      reads this
    {
      Look(validator, DirectoryOf(group))
    }

    twostate predicate OnlyTouches(group: string)
      reads this
    {
      forall g | g != group :: DirectoryOf(g) == old(DirectoryOf(g))
    }

    method PutFile(group: string, name: string, content: Content)
      requires group in groups
      modifies this
      ensures groups == old(groups)[group := old(groups)[group][name := content]]
    {
      groups := groups[group := groups[group][name := content]];
    }

    method Rename(group: string, pending: string, name: string)
      requires group in groups && pending in groups[group]
      modifies this
      ensures groups == old(groups)[group := (old(groups)[group] - {pending})[name := old(groups)[group][pending]]]
    {
      var directory := groups[group];
      groups := groups[group := (directory - {pending})[name := directory[pending]]];
    }

    method UnlinkIfThere(group: string, name: string)
      requires group in groups
      modifies this
      ensures groups == old(groups)[group := old(groups)[group] - {name}]
    {
      groups := groups[group := groups[group] - {name}];
    }

    /** After a crash at any point the file is the old one or the new one; pending files may be left. */
    method WriteToPath(group: string, name: string, dashboard: Dashboard, nonce: string, life: Life)
      returns (left: Option<Life>)
      requires group in groups && Listed(name)
      modifies this
      ensures group in groups && groups == old(groups)[group := groups[group]]
      ensures HalfWay(old(groups[group]), groups[group], name, PendingName(name, nonce), dashboard)
      ensures left.Some? ==> groups[group] == Replaced(old(groups[group]), name, PendingName(name, nonce), dashboard)
      ensures left.None? ==> life < 4
    {
      var pending := PendingName(name, nonce);
      NamesAreApart(name, nonce);
      WriteStages(groups[group], name, pending, dashboard);
      hide Listed, PendingName, Replaced;
      if life == 0 { return None; }
      PutFile(group, pending, Broken);
      if life == 1 { return None; }
      PutFile(group, pending, Whole(dashboard));
      if life == 2 { return None; }
      Rename(group, pending, name);
      if life == 3 { return None; }
      UnlinkIfThere(group, pending);
      return Some(life - 4);
    }

    /**
      Read one dashboard file, writing a translated one back. The answer is what a reader sees; a file
      that was doomed is damaged from then on.
     */
    method ReadOne(group: string, name: string, nonce: string, life: Life)
      returns (r: Outcome<Dashboard>, left: Life)
      requires name in DirectoryOf(group) && Listed(name)
      modifies this
      ensures OnlyTouches(group) && group in groups
      ensures var view, read := old(ViewOf(group)), AfterReading(validator, old(ViewOf(group)), {name});
              match r
              case Done(d) => name in view.shown && d == view.shown[name] && ViewOf(group) == read
              case Unreadable => name in view.damaged && ViewOf(group) == view == read
              case Crashed => name in view.shown && (ViewOf(group) == view || ViewOf(group) == read)
              case DashboardNameTaken(_) => false
    {
      ghost var directory := DirectoryOf(group);
      ghost var view := ViewOf(group);
      LookMembers(validator, directory, name);
      LookIsApart(validator, directory, name);
      match DirectoryOf(group)[name] {
        case Broken =>
          ReadingNothing(validator, view, {name});
          return Unreadable, life;
        case Whole(stored) =>
          var accepted := Accepts(validator, stored);
          hide Translate, Accepts, Look, Listed, AfterReading;
          if !accepted {
            ReadingNothing(validator, view, {name});
            return Unreadable, life;
          }
          WriteBackIsRead(validator, directory, name, stored);
          var translated := Translate(stored);
          if translated != stored {
            var written := WriteToPath(group, name, translated, nonce, life);
            ReplacementIsAtomic(validator, directory, groups[group], name, nonce, translated);
            if written.None? {
              return Crashed, 0;
            }
            return Done(translated), written.value;
          }
          return Done(translated), life;
      }
    }

    /** The group's dashboard files in name order. */
    method FilesInOrder(group: string) returns (files: seq<string>)
      ensures IsListing(ViewOf(group), files) && SortedBy(files, TextOrder.AtMost)
    {
      var directory := DirectoryOf(group);
      var names := set f | f in directory && Listed(f);
      var found := Enumerate(names);
      SortedListing(validator, directory, found);
      hide StableSort, IsListing, SortedBy;
      files := StableSort(found, TextOrder.AtMost);
    }

    /**
      All that a reader of the group can see, in the order of the file names; broken files are passed
      over. Afterwards every file that was doomed is damaged.
     */
    method ReadAll(group: string, nonce: string, life: Life)
      returns (r: Outcome<seq<Dashboard>>, left: Life, ghost files: seq<string>)
      modifies this
      ensures OnlyTouches(group)
      ensures var view := old(ViewOf(group));
              match r
              case Done(all) =>
                IsListing(view, files) && all == ShownIn(view, files) && ViewOf(group) == AllRead(validator, view)
              case Crashed => Reads(validator, view, ViewOf(group))
              case _ => false
    {
      hide Look, Listed, AfterReading;
      files := [];
      left := life;
      if group !in groups {
        LookOfNothing(validator);
        return Done([]), left, files;
      }
      var names := FilesInOrder(group);
      files := names;
      ghost var before := DirectoryOf(group);
      ghost var view := ViewOf(group);
      var dashboards: seq<Dashboard> := [];
      NothingReadYet(validator, view, names);
      for i := 0 to |names|
        invariant group in groups && OnlyTouches(group)
        invariant ViewOf(group) == AfterReading(validator, view, FirstOf(names, i))
        invariant dashboards == ShownIn(view, names[..i])
      {
        NextIsUnread(validator, view, names, i);
        LookIsApart(validator, before, names[i]);
        SeenIsThere(validator, DirectoryOf(group), names[i]);
        var one;
        one, left := ReadOne(group, names[i], nonce, left);
        ReadOneMore(validator, view, names, i);
        if one.Crashed? {
          return Crashed, 0, files;
        }
        if one.Done? {
          dashboards := dashboards + [one.value];
        }
        assert names[..i + 1][..i] == names[..i];
      }
      assert names[..|names|] == names;
      EverythingRead(validator, view, names);
      return Done(dashboards), left, files;
    }

    /**
      Refuses exactly when a dashboard that could be read had the name and is not the one excepted;
      either way everything has been read.
     */
    method RefuseDuplicateName(group: string, name: string, except: Option<string>, nonce: string, life: Life)
      returns (r: Outcome<()>, left: Life)
      modifies this
      ensures OnlyTouches(group)
      ensures var view := old(ViewOf(group));
              match r
              case Done(_) => !NameTaken(view, name, except) && ViewOf(group) == AllRead(validator, view)
              case DashboardNameTaken(taken) =>
                taken == name && NameTaken(view, name, except) && ViewOf(group) == AllRead(validator, view)
              case Crashed => Reads(validator, view, ViewOf(group))
              case Unreadable => false
    {
      hide AfterReading, Look;
      ghost var view := ViewOf(group);
      var all;
      ghost var files;
      all, left, files := ReadAll(group, nonce, life);
      if all.Crashed? {
        return Crashed, 0;
      }
      ShownInMembers(view, files);
      for i := 0 to |all.value|
        invariant forall k | 0 <= k < i :: all.value[k].name != name || Some(all.value[k].dashboardId) == except
      {
        var existing := all.value[i];
        if existing.name != name {
          continue;
        }
        if except.Some? && existing.dashboardId == except.value {
          continue;
        }
        assert existing in all.value;
        return DashboardNameTaken(name), left;
      }
      return Done(()), left;
    }

    /** The group's dashboards, most recently updated first, ties broken by name. */
    method ListDashboards(group: string, nonce: string, life: Life)
      returns (r: Outcome<seq<Summary>>, ghost listed: seq<Dashboard>)
      modifies this
      ensures OnlyTouches(group)
      ensures var view := old(ViewOf(group));
              match r
              case Done(summaries) =>
                && |summaries| == |listed| == |view.shown|
                && (forall i | 0 <= i < |listed| :: IsSummaryOf(summaries[i], listed[i]))
                && (forall d :: d in listed <==> IsShown(view, d))
                && SortedBy(listed, ListedBefore)
                && ViewOf(group) == AllRead(validator, view)
              case Crashed => Reads(validator, view, ViewOf(group))
              case _ => false
    {
      hide Look, IsListing, IsShown, ShownIn, StableSort, SortedBy, AfterReading;
      ghost var view := ViewOf(group);
      listed := [];
      var all, left, files := ReadAll(group, nonce, life);
      if all.Crashed? {
        return Crashed, [];
      }
      var dashboards := all.value;
      SortedListingIsComplete(view, files);
      dashboards := StableSort(dashboards, ByName);
      dashboards := StableSort(dashboards, NewestFirst);
      listed := dashboards;
      r := Done(seq(|dashboards|, i requires 0 <= i < |dashboards| => Summarize(dashboards[i])));
    }

    /** What a reader sees under this id; a broken file is an error and not an absence. */
    method GetDashboard(group: string, dashboardId: string, nonce: string, life: Life)
      returns (r: Outcome<Option<Dashboard>>, left: Life)
      modifies this
      ensures OnlyTouches(group)
      ensures var file, view := FinalName(dashboardId), old(ViewOf(group));
              var read := AfterReading(validator, view, {file});
              match r
              case Done(None) => file !in view.shown && file !in view.damaged && ViewOf(group) == view
              case Done(Some(d)) => file in view.shown && d == view.shown[file] && ViewOf(group) == read
              case Unreadable => file in view.damaged && ViewOf(group) == view
              case Crashed => file in view.shown && (ViewOf(group) == view || ViewOf(group) == read)
              case DashboardNameTaken(_) => false
    {
      var file := FinalName(dashboardId);
      FinalNamesAreListed(dashboardId, dashboardId);
      hide Look, FinalName, AfterReading;
      LookMembers(validator, DirectoryOf(group), file);
      if file !in DirectoryOf(group) {
        return Done(None), life;
      }
      var one;
      one, left := ReadOne(group, file, nonce, life);
      match one {
        case Done(dashboard) => r := Done(Some(dashboard));
        case Unreadable => r := Unreadable;
        case _ => r := Crashed;
      }
    }

    method Write(group: string, dashboard: Dashboard, nonce: string, life: Life) returns (written: bool)
      modifies this
      ensures OnlyTouches(group)
      ensures var before := old(ViewOf(group));
              var after := Written(validator, before, FinalName(dashboard.dashboardId), dashboard);
              && (written ==> ViewOf(group) == after)
              && (!written ==> life < 5 && (ViewOf(group) == before || ViewOf(group) == after))
    {
      FinalNamesAreListed(dashboard.dashboardId, dashboard.dashboardId);
      hide Translate, FinalName, Look, Written;
      if life == 0 {
        return false;
      }
      if group !in groups {
        groups := groups[group := map[]];
      }
      assert DirectoryOf(group) == old(DirectoryOf(group));
      ghost var before := groups[group];
      var file := FinalName(dashboard.dashboardId);
      var left := WriteToPath(group, file, dashboard, nonce, life - 1);
      ReplacementIsAtomic(validator, before, groups[group], file, nonce, dashboard);
      return left.Some?;
    }

    /**
      Store a new dashboard under an id no file of the group carries. Content is validated where it is
      made, so it is accepted as it stands; what it translates to may not be.
     */
    method CreateDashboard(group: string, content: DashboardContent, createdBy: string, now: int, dashboardId: string,
                           nonce: string, life: Life)
      returns (r: Outcome<Dashboard>)
      requires AcceptsContent(validator, content.filters, content.charts)
      requires Sound(ViewOf(group))
      requires FinalName(dashboardId) !in DirectoryOf(group)
      modifies this
      ensures OnlyTouches(group) && Sound(ViewOf(group)) && Step(validator, old(ViewOf(group)), ViewOf(group))
      ensures var stored := Dashboard(
                dashboardId := dashboardId, createdBy := createdBy, createdAt := now, updatedAt := now,
                name := content.name, description := content.description,
                filters := content.filters, charts := content.charts);
              var before, read := old(ViewOf(group)), AllRead(validator, old(ViewOf(group)));
              match r
              case Done(d) =>
                d == stored && !NameTaken(before, content.name, None) && ViewOf(group) == Put(read, Translate(stored))
              case DashboardNameTaken(name) =>
                name == content.name && NameTaken(before, name, None) && ViewOf(group) == read
              case Crashed =>
                || Reads(validator, before, ViewOf(group))
                || (!NameTaken(before, content.name, None) && ViewOf(group) == Put(read, Translate(stored)))
              case Unreadable => false
    {
      FinalNamesAreListed(dashboardId, dashboardId);
      LookMembers(validator, DirectoryOf(group), FinalName(dashboardId));
      hide Look, Sound, FinalName, Translate, AfterReading, Written, Put, AcceptsContent, Reads, NameTaken, Step;
      ghost var before := ViewOf(group);
      var dashboard := FromContent(content, dashboardId, createdBy, now, now);
      TranslationKeepsIdentity(dashboard);
      AllIsRead(validator, before);
      var refused, left := RefuseDuplicateName(group, content.name, None, nonce, life);
      match refused {
        case DashboardNameTaken(name) =>
          ReadingIsAStep(validator, before, ViewOf(group));
          StepKeepsSound(validator, before, ViewOf(group));
          return DashboardNameTaken(name);
        case Crashed =>
          ReadingIsAStep(validator, before, ViewOf(group));
          StepKeepsSound(validator, before, ViewOf(group));
          return Crashed;
        case _ =>
      }
      CreateIsAStep(validator, before, Translate(dashboard));
      PutWritten(validator, ViewOf(group), dashboard);
      var written := Write(group, dashboard, nonce, left);
      StepKeepsSound(validator, before, ViewOf(group));
      return if written then Done(dashboard) else Crashed;
    }

    /** Replace a dashboard's content, keeping who made it and when. */
    method UpdateDashboard(group: string, dashboardId: string, content: DashboardContent, now: int, nonce: string,
                           life: Life)
      returns (r: Outcome<Option<Dashboard>>)
      requires AcceptsContent(validator, content.filters, content.charts)
      requires Sound(ViewOf(group))
      modifies this
      ensures OnlyTouches(group) && Sound(ViewOf(group)) && Step(validator, old(ViewOf(group)), ViewOf(group))
      ensures var file, before := FinalName(dashboardId), old(ViewOf(group));
              var read := AllRead(validator, before);
              if file in before.shown then
                var existing := before.shown[file];
                var updated := Dashboard(
                  dashboardId := dashboardId, createdBy := existing.createdBy, createdAt := existing.createdAt,
                  updatedAt := now, name := content.name, description := content.description,
                  filters := content.filters, charts := content.charts);
                var free := !NameTaken(before, content.name, Some(dashboardId));
                match r
                case Done(d) => d == Some(updated) && free && ViewOf(group) == Put(read, Translate(updated))
                case DashboardNameTaken(name) => name == content.name && !free && ViewOf(group) == read
                case Crashed =>
                  Reads(validator, before, ViewOf(group)) || (free && ViewOf(group) == Put(read, Translate(updated)))
                case Unreadable => false
              else
                && ViewOf(group) == before
                && (if file in before.damaged then r == Unreadable else r == Done(None))
    {
      ghost var before := ViewOf(group);
      ghost var file := FinalName(dashboardId);
      SoundFile(before, file);
      FinalNamesAreApart(before, dashboardId);
      OneIsRead(validator, before, file);
      AllIsRead(validator, before);
      NameTakenByOthers(validator, before, dashboardId, content.name);
      OneThenAll(validator, before, file);
      hide Look, Sound, FinalName, Translate, AfterReading, Written, Put, AcceptsContent, Reads, NameTaken, Step;
      var got, left := GetDashboard(group, dashboardId, nonce, life);
      match got {
        case Done(None) =>
          ReadingIsAStep(validator, before, ViewOf(group));
          return Done(None);
        case Crashed =>
          ReadingIsAStep(validator, before, ViewOf(group));
          StepKeepsSound(validator, before, ViewOf(group));
          return Crashed;
        case Unreadable =>
          ReadingIsAStep(validator, before, ViewOf(group));
          return Unreadable;
        case Done(Some(existing)) =>
          var refused;
          refused, left := RefuseDuplicateName(group, content.name, Some(dashboardId), nonce, left);
          match refused {
            case DashboardNameTaken(name) =>
              ReadingIsAStep(validator, before, ViewOf(group));
              StepKeepsSound(validator, before, ViewOf(group));
              return DashboardNameTaken(name);
            case Crashed =>
              ReadsMore(validator, before, file, ViewOf(group));
              ReadingIsAStep(validator, before, ViewOf(group));
              StepKeepsSound(validator, before, ViewOf(group));
              return Crashed;
            case _ =>
          }
          var updated := FromContent(content, existing.dashboardId, existing.createdBy, existing.createdAt, now);
          TranslationKeepsIdentity(updated);
          UpdateIsAStep(validator, before, Translate(updated));
          PutWritten(validator, ViewOf(group), updated);
          var written := Write(group, updated, nonce, left);
          StepKeepsSound(validator, before, ViewOf(group));
          return if written then Done(Some(updated)) else Crashed;
      }
    }

    /** Remove a dashboard, whether or not its file is readable. */
    method DeleteDashboard(group: string, dashboardId: string, life: Life) returns (r: Outcome<bool>)
      requires Sound(ViewOf(group))
      modifies this
      ensures OnlyTouches(group) && Sound(ViewOf(group)) && Step(validator, old(ViewOf(group)), ViewOf(group))
      ensures var file, before := FinalName(dashboardId), old(ViewOf(group));
              match r
              case Done(removed) =>
                && (removed <==> file in before.shown || file in before.damaged)
                && ViewOf(group) == Without(before, file)
              case Crashed => life == 0 && ViewOf(group) == before
              case _ => false
    {
      var file := FinalName(dashboardId);
      FinalNamesAreListed(dashboardId, dashboardId);
      LookMembers(validator, DirectoryOf(group), file);
      LookWithout(validator, DirectoryOf(group), file);
      hide Look, Sound, FinalName, Step;
      if file !in DirectoryOf(group) {
        assert DirectoryOf(group) - {file} == DirectoryOf(group);
        return Done(false);
      }
      if life == 0 {
        return Crashed;
      }
      groups := groups[group := groups[group] - {file}];
      StepKeepsSound(validator, old(ViewOf(group)), ViewOf(group));
      return Done(true);
    }
  }
}
