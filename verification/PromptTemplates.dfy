/** Which variables a template reads, followed through its includes, and what a call site passes. */
module PromptTemplates {
  import opened Wrappers

  type Path = string

  /**
    A parsed template: the names it leaves undeclared and those of the templates it refers to,
    `None` for a computed one.
   */
  datatype Template = Template(undeclared: set<string>, references: seq<Option<string>>)

  /** The template files, and where a reference is looked up under the root being searched. */
  datatype Library = Library(files: map<Path, Template>, under: string -> Path)

  /** `b` is a template file that `a` includes. */
  predicate Includes(library: Library, a: Path, b: Path) {
    && a in library.files && b in library.files
    && exists i | 0 <= i < |library.files[a].references| ::
         library.files[a].references[i].Some? && library.under(library.files[a].references[i].value) == b
  }

  /** A chain of includes from its first path to its last. */
  ghost predicate IsChain(library: Library, chain: seq<Path>) {
    chain != [] && forall i | 0 <= i < |chain| - 1 :: Includes(library, chain[i], chain[i + 1])
  }

  ghost predicate Reaches(library: Library, from: Path, to: Path) {
    exists chain :: IsChain(library, chain) && chain[0] == from && chain[|chain| - 1] == to
  }

  function VariablesOf(library: Library, paths: set<Path>): set<string> {
    set p, v | p in paths && p in library.files && v in library.files[p].undeclared :: v
  }

  /** The set of visited paths that the recursive calls share. */
  class Seen {
    var paths: set<Path>

    constructor ()
      ensures paths == {}
    {
      paths := {};
    }
  }

  lemma ReachesSelf(library: Library, from: Path)
    ensures Reaches(library, from, from)
  {
    assert IsChain(library, [from]);
  }

  lemma ReachesThrough(library: Library, from: Path, next: Path, to: Path)
    requires Includes(library, from, next) && Reaches(library, next, to)
    ensures Reaches(library, from, to)
  {
    var chain :| IsChain(library, chain) && chain[0] == next && chain[|chain| - 1] == to;
    var longer := [from] + chain;
    forall i | 0 <= i < |longer| - 1 ensures Includes(library, longer[i], longer[i + 1]) {
      if i > 0 {
        assert Includes(library, chain[i - 1], chain[i]);
      }
    }
    assert IsChain(library, longer);
  }

  /** Every include of `p` has been visited. */
  ghost predicate Followed(library: Library, p: Path, seen: set<Path>) {
    forall q | Includes(library, p, q) :: q in seen
  }

  /**
    The names read on a visit of `path`. The result covers
    exactly the paths this call is the first to see; each of those is reachable and has all its
    includes visited when the call returns.
   */
  method VariablesRead(library: Library, path: Path, seen: Seen) returns (read: set<string>)
    requires path in library.files
    modifies seen
    ensures old(seen.paths) + {path} <= seen.paths
    ensures seen.paths - old(seen.paths) <= library.files.Keys
    ensures read == VariablesOf(library, seen.paths - old(seen.paths))
    ensures forall p | p in seen.paths - old(seen.paths) ::
            Reaches(library, path, p) && Followed(library, p, seen.paths)
    decreases library.files.Keys - seen.paths
  {
    if path in seen.paths {
      assert seen.paths - old(seen.paths) == {};
      return {};
    }
    ghost var start := seen.paths;
    seen.paths := seen.paths + {path};
    var parsed := library.files[path];
    read := parsed.undeclared;
    ReachesSelf(library, path);
    assert seen.paths - start == {path};
    for i := 0 to |parsed.references|
      invariant start + {path} <= seen.paths
      invariant seen.paths - start <= library.files.Keys
      invariant read == VariablesOf(library, seen.paths - start)
      invariant forall p | p in seen.paths - start :: Reaches(library, path, p)
      invariant forall p | p in seen.paths - start && p != path :: Followed(library, p, seen.paths)
      invariant forall k | 0 <= k < i && parsed.references[k].Some?
                           && library.under(parsed.references[k].value) in library.files ::
                  library.under(parsed.references[k].value) in seen.paths
    {
      var name := parsed.references[i];
      if name.None? {
        continue;
      }
      var included := library.under(name.value);
      if included in library.files {
        ghost var before := seen.paths;
        var more := VariablesRead(library, included, seen);
        read := read + more;
        NewlySeen(library, path, included, start, before, seen.paths);
      }
    }
  }

  /** What one included template's visit adds to the visit of the template including it. */
  lemma NewlySeen(library: Library, path: Path, included: Path, start: set<Path>, before: set<Path>, after: set<Path>)
    requires path in library.files && Includes(library, path, included)
    requires start <= before <= after
    requires forall p | p in after - before :: Reaches(library, included, p)
    ensures VariablesOf(library, before - start) + VariablesOf(library, after - before)
            == VariablesOf(library, after - start)
    ensures forall p | p in after - before :: Reaches(library, path, p)
    ensures forall p | Followed(library, p, before) :: Followed(library, p, after)
  {
    forall p | p in after - before ensures Reaches(library, path, p) {
      ReachesThrough(library, path, included, p);
    }
    assert after - start == (before - start) + (after - before);
  }

  /** A set that holds a template and every include of its members holds everything reachable. */
  lemma {:induction false} ClosedHoldsReachable(library: Library, seen: set<Path>, chain: seq<Path>)
    requires forall p | p in seen :: Followed(library, p, seen)
    requires IsChain(library, chain) && chain[0] in seen
    ensures chain[|chain| - 1] in seen
  {
    if |chain| > 1 {
      assert Includes(library, chain[0], chain[1]);
      var rest := chain[1..];
      forall i | 0 <= i < |rest| - 1 ensures Includes(library, rest[i], rest[i + 1]) {
        assert Includes(library, chain[i + 1], chain[i + 2]);
      }
      ClosedHoldsReachable(library, seen, rest);
    }
  }

  lemma ClosedIsReachable(library: Library, seen: set<Path>, path: Path)
    requires path in seen
    requires forall p | p in seen :: Reaches(library, path, p) && Followed(library, p, seen)
    ensures forall p :: p in seen <==> Reaches(library, path, p)
  {
    forall p | Reaches(library, path, p) ensures p in seen {
      var chain :| IsChain(library, chain) && chain[0] == path && chain[|chain| - 1] == p;
      ClosedHoldsReachable(library, seen, chain);
    }
  }

  /** `v` is undeclared in some template reachable from `path`. */
  ghost predicate Reads(library: Library, path: Path, v: string) {
    exists p | p in library.files :: Reaches(library, path, p) && v in library.files[p].undeclared
  }

  /**
    Started with nothing seen, the visit returns exactly the variables of all reachable templates,
    whatever cycles and diamonds the includes form, and it terminates.
   */
  method AllVariablesRead(library: Library, path: Path) returns (read: set<string>)
    requires path in library.files
    ensures forall v :: v in read <==> Reads(library, path, v)
  {
    var seen := new Seen();
    read := VariablesRead(library, path, seen);
    ClosedIsReachable(library, seen.paths, path);
    assert seen.paths - {} == seen.paths;
  }

  /** A call site and the variables its literal passes. */
  datatype RenderCall = RenderCall(templateName: string, passed: set<string>)

  datatype Finding = Missing(names: set<string>) | Unused(names: set<string>)

  /** Exactly the names that are read and not passed, and those passed and not read; none of either, no finding. */
  method VariableFindings(library: Library, call: RenderCall, template: Path) returns (findings: seq<Finding>)
    requires template in library.files
    ensures findings == [] <==> forall v :: v in call.passed <==> Reads(library, template, v)
    ensures forall f | f in findings && f.Missing? ::
              forall v :: v in f.names <==> Reads(library, template, v) && v !in call.passed
    ensures forall f | f in findings && f.Unused? ::
              forall v :: v in f.names <==> v in call.passed && !Reads(library, template, v)
    ensures forall v | Reads(library, template, v) && v !in call.passed ::
              exists f | f in findings :: f.Missing? && v in f.names
    ensures forall v | v in call.passed && !Reads(library, template, v) ::
              exists f | f in findings :: f.Unused? && v in f.names
    ensures |findings| <= 2
  {
    var read := AllVariablesRead(library, template);
    hide Reads;
    var missing, unused := read - call.passed, call.passed - read;
    findings := [];
    if missing != {} {
      findings := findings + [Missing(missing)];
    }
    if unused != {} {
      findings := findings + [Unused(unused)];
    }
    assert missing != {} ==> Missing(missing) == findings[0];
    assert unused != {} ==> Unused(unused) == findings[|findings| - 1];
    forall v | Reads(library, template, v) && v !in call.passed
      ensures exists f | f in findings :: f.Missing? && v in f.names
    {
      assert v in missing;
      assert findings[0] in findings;
    }
    forall v | v in call.passed && !Reads(library, template, v)
      ensures exists f | f in findings :: f.Unused? && v in f.names
    {
      assert v in unused;
      assert findings[|findings| - 1] in findings;
    }
  }
}
