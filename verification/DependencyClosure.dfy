/**
 * Which store directories a package needs: `dependencyClosure`, a worklist over the
 * links pnpm created.
 */
module DependencyClosure {
  import opened Options

  /** Names are compared as the program's strings are, by 16-bit code units. */
  type CodeUnit = x: nat | x < 0x10000

  type Name = seq<CodeUnit>

  const AT_SIGN: CodeUnit := 0x40

  /**
   * An entry of a package's `node_modules`: a link, or a scope directory with links
   * inside. A link resolves to a store directory, or to somewhere outside the store.
   */
  datatype Entry = Link(target: Option<Name>) | ScopeDir(targets: seq<Option<Name>>)

  /** The store: its directories, and the links of those that have a `node_modules`. */
  datatype Store = Store(dirs: seq<Name>, links: map<Name, seq<Entry>>)

  function Candidates(entry: Entry): seq<Option<Name>> {
    match entry
    case Link(target) => [target]
    case ScopeDir(targets) => targets
  }

  // ---------- Order ----------

  /** The first differing code unit decides; a prefix comes first. */
  predicate Less(a: Name, b: Name) {
    b != [] && (a == [] || a[0] < b[0] || (a[0] == b[0] && Less(a[1..], b[1..])))
  }

  lemma {:induction false} LessOrMore(a: Name, b: Name)
    ensures a == b || Less(a, b) || Less(b, a)
    ensures !(Less(a, b) && (a == b || Less(b, a)))
  {
    if a != [] && b != [] && a[0] == b[0] {
      LessOrMore(a[1..], b[1..]);
      assert a == [a[0]] + a[1..] && b == [b[0]] + b[1..];
    }
  }

  lemma {:induction false} LessTransitive(a: Name, b: Name, c: Name)
    requires Less(a, b) && Less(b, c)
    ensures Less(a, c)
  {
    if a != [] && a[0] == b[0] == c[0] {
      LessTransitive(a[1..], b[1..], c[1..]);
    }
  }

  /** Up to some place the names agree; there one ends, or has the smaller code unit. */
  ghost predicate Precedes(a: Name, b: Name) {
    exists k :: 0 <= k <= |a| && DecidedAt(a, b, k)
  }

  ghost predicate DecidedAt(a: Name, b: Name, k: nat)
    requires k <= |a|
  {
    k < |b| && a[..k] == b[..k] && (k == |a| || a[k] < b[k])
  }

  lemma FirstAgrees(a: Name, b: Name, k: nat)
    requires k <= |a| && DecidedAt(a, b, k)
    ensures k > 0 ==> a != [] && b != [] && a[0] == b[0]
  {
    if k > 0 {
      assert a[..k][0] == b[..k][0];
    }
  }

  lemma {:induction false} LessPrecedes(a: Name, b: Name)
    ensures Less(a, b) <==> Precedes(a, b)
  {
    if a != [] && b != [] && a[0] == b[0] {
      LessPrecedes(a[1..], b[1..]);
      if Precedes(a[1..], b[1..]) {
        var k :| 0 <= k <= |a[1..]| && DecidedAt(a[1..], b[1..], k);
        assert a[..k + 1] == [a[0]] + a[1..][..k] && b[..k + 1] == [b[0]] + b[1..][..k];
        assert DecidedAt(a, b, k + 1);
      }
      if Precedes(a, b) {
        var k :| 0 <= k <= |a| && DecidedAt(a, b, k);
        assert a[1..][..k - 1] == a[..k][1..] && b[1..][..k - 1] == b[..k][1..];
        assert DecidedAt(a[1..], b[1..], k - 1);
      }
    } else if Less(a, b) {
      assert DecidedAt(a, b, 0);
    } else if Precedes(a, b) {
      var k :| 0 <= k <= |a| && DecidedAt(a, b, k);
      FirstAgrees(a, b, k);
    }
  }

  /** Sorted, and nothing twice. */
  ghost predicate Ascending(names: seq<Name>) {
    forall i, j :: 0 <= i < j < |names| ==> Precedes(names[i], names[j])
  }

  ghost predicate InLessOrder(names: seq<Name>) {
    forall i, j :: 0 <= i < j < |names| ==> Less(names[i], names[j])
  }

  function Place(sorted: seq<Name>, name: Name): seq<Name> {
    if sorted == [] || !Less(sorted[0], name) then [name] + sorted
    else [sorted[0]] + Place(sorted[1..], name)
  }

  function Sorted(names: seq<Name>): seq<Name> {
    if names == [] then [] else Place(Sorted(names[1..]), names[0])
  }

  lemma {:induction false} PlaceAscends(sorted: seq<Name>, name: Name)
    requires InLessOrder(sorted) && name !in sorted
    ensures InLessOrder(Place(sorted, name))
    ensures forall x :: x in Place(sorted, name) <==> x in sorted || x == name
  {
    if sorted == [] {
    } else if Less(sorted[0], name) {
      var rest := sorted[1..];
      PlaceAscends(rest, name);
      var placed := Place(rest, name);
      forall i | 0 <= i < |placed| ensures Less(sorted[0], placed[i]) {
        assert placed[i] in placed;
        if placed[i] != name {
          var j :| 0 <= j < |rest| && rest[j] == placed[i];
          assert sorted[j + 1] == rest[j];
        }
      }
    } else {
      LessOrMore(sorted[0], name);
      forall i | 0 < i < |sorted| ensures Less(name, sorted[i]) {
        LessTransitive(name, sorted[0], sorted[i]);
      }
    }
  }

  lemma {:induction false} SortedInLessOrder(names: seq<Name>)
    requires forall i, j :: 0 <= i < j < |names| ==> names[i] != names[j]
    ensures InLessOrder(Sorted(names))
    ensures forall x :: x in Sorted(names) <==> x in names
  {
    if names != [] {
      SortedInLessOrder(names[1..]);
      PlaceAscends(Sorted(names[1..]), names[0]);
      assert names == [names[0]] + names[1..];
    }
  }

  lemma {:induction false} SortedAscends(names: seq<Name>)
    requires forall i, j :: 0 <= i < j < |names| ==> names[i] != names[j]
    ensures Ascending(Sorted(names))
    ensures forall x :: x in Sorted(names) <==> x in names
  {
    hide Less, Precedes;
    SortedInLessOrder(names);
    var sorted := Sorted(names);
    forall i, j | 0 <= i < j < |sorted| ensures Precedes(sorted[i], sorted[j]) {
      LessPrecedes(sorted[i], sorted[j]);
    }
  }

  // ---------- Reachability ----------

  /** Some root prefix, then an at sign, then a version. */
  ghost predicate HasRootPrefix(prefixes: seq<Name>, dir: Name) {
    exists i :: 0 <= i < |prefixes| && StartsWith(dir, prefixes[i])
  }

  ghost predicate StartsWith(dir: Name, prefix: Name) {
    |prefix| < |dir| && dir[..|prefix|] == prefix && dir[|prefix|] == 0x40
  }

  lemma RootNamesHavePrefixes(prefixes: seq<Name>, dir: Name)
    ensures IsRootName(prefixes, dir) <==> HasRootPrefix(prefixes, dir)
  {
    forall i | 0 <= i < |prefixes| ensures prefixes[i] + [AT_SIGN] <= dir <==> StartsWith(dir, prefixes[i]) {
      var p := prefixes[i];
      if StartsWith(dir, p) {
        assert dir == (p + [AT_SIGN]) + dir[|p| + 1..];
      }
      if p + [AT_SIGN] <= dir {
        assert dir[..|p|] == (p + [AT_SIGN])[..|p|] == p;
        assert dir[|p|] == (p + [AT_SIGN])[|p|];
      }
    }
  }

  predicate IsRootName(prefixes: seq<Name>, dir: Name) {
    exists i :: 0 <= i < |prefixes| && prefixes[i] + [AT_SIGN] <= dir
  }

  function Roots(dirs: seq<Name>, prefixes: seq<Name>): (roots: seq<Name>)
    ensures forall d :: d in roots <==> d in dirs && IsRootName(prefixes, d)
  {
    if dirs == [] then []
    else (if IsRootName(prefixes, dirs[0]) then [dirs[0]] else []) + Roots(dirs[1..], prefixes)
  }

  /** A link to `b` among the entries themselves, or one level down in a scope directory. */
  ghost predicate LinksTo(entries: seq<Entry>, b: Name) {
    exists i :: 0 <= i < |entries| && EntryLinksTo(entries[i], b)
  }

  ghost predicate EntryLinksTo(entry: Entry, b: Name) {
    entry == Link(Some(b)) || (entry.ScopeDir? && Some(b) in entry.targets)
  }

  lemma CandidatesAreLinks(entry: Entry, b: Name)
    ensures Some(b) in Candidates(entry) <==> EntryLinksTo(entry, b)
  {}

  ghost predicate Linked(store: Store, a: Name, b: Name) {
    a in store.links && LinksTo(store.links[a], b)
  }

  /** A chain of links from one of the roots. */
  ghost predicate IsPath(store: Store, prefixes: seq<Name>, path: seq<Name>) {
    && path != []
    && path[0] in store.dirs && HasRootPrefix(prefixes, path[0])
    && (forall i :: 0 <= i < |path| - 1 ==> Linked(store, path[i], path[i + 1]))
  }

  ghost predicate Reachable(store: Store, prefixes: seq<Name>, name: Name) {
    exists path :: IsPath(store, prefixes, path) && path[|path| - 1] == name
  }

  lemma {:induction false} RootIsReachable(store: Store, prefixes: seq<Name>, name: Name)
    requires name in Roots(store.dirs, prefixes)
    ensures Reachable(store, prefixes, name)
  {
    assert IsPath(store, prefixes, [name]) && [name][0] == name;
  }

  lemma LinkIsReachable(store: Store, prefixes: seq<Name>, a: Name, b: Name)
    requires Reachable(store, prefixes, a) && Linked(store, a, b)
    ensures Reachable(store, prefixes, b)
  {
    var path :| IsPath(store, prefixes, path) && path[|path| - 1] == a;
    var longer := path + [b];
    forall i | 0 <= i < |longer| - 1 ensures Linked(store, longer[i], longer[i + 1]) {
      if i < |path| - 1 {
        assert longer[i] == path[i] && longer[i + 1] == path[i + 1];
      }
    }
    assert IsPath(store, prefixes, longer) && longer[|longer| - 1] == b;
  }

  /** A set that holds the roots and everything its members link to holds every path. */
  ghost predicate Closed(store: Store, found: seq<Name>) {
    forall a, b :: a in found && Linked(store, a, b) ==> b in found
  }

  lemma {:induction false} ClosedHoldsPaths(store: Store, prefixes: seq<Name>, found: seq<Name>, path: seq<Name>)
    requires forall r :: r in Roots(store.dirs, prefixes) ==> r in found
    requires Closed(store, found) && IsPath(store, prefixes, path)
    ensures path[|path| - 1] in found
  {
    var n := |path| - 1;
    if n > 0 {
      var before := path[..n];
      forall i | 0 <= i < |before| - 1 ensures Linked(store, before[i], before[i + 1]) {
        assert before[i] == path[i] && before[i + 1] == path[i + 1];
      }
      ClosedHoldsPaths(store, prefixes, found, before);
      assert Linked(store, path[n - 1], path[n]);
    }
  }

  // ---------- The worklist ----------

  /** Every name the walk could ever meet. */
  ghost function Universe(store: Store, prefixes: seq<Name>): set<Name> {
    (set r | r in Roots(store.dirs, prefixes))
    + (set a, i, c | a in store.links && 0 <= i < |store.links[a]| && c in Candidates(store.links[a][i]) && c.Some?
       :: c.value)
  }

  lemma LinkedIsKnown(store: Store, prefixes: seq<Name>, a: Name, b: Name)
    requires Linked(store, a, b)
    ensures b in Universe(store, prefixes)
  {
    var i :| 0 <= i < |store.links[a]| && Some(b) in Candidates(store.links[a][i]);
    assert Some(b).value == b;
  }

  ghost function NamesOf(names: seq<Name>): set<Name> {
    set x | x in names
  }

  /** What the first `n` entries link to is found or queued. */
  ghost predicate Followed(entries: seq<Entry>, n: nat, found: seq<Name>, queue: seq<Name>)
    requires n <= |entries|
  {
    forall b :: LinksTo(entries[..n], b) ==> b in found || b in queue
  }

  /** The links of one package: those not found yet are pushed. */
  method PushLinks(entries: seq<Entry>, found: seq<Name>, queue: seq<Name>) returns (longer: seq<Name>)
    ensures queue <= longer
    ensures forall x :: x in longer ==> x in queue || LinksTo(entries, x)
    ensures forall b :: LinksTo(entries, b) ==> b in found || b in longer
  {
    longer := queue;
    var i := 0;
    while i < |entries|
      invariant 0 <= i <= |entries|
      invariant queue <= longer
      invariant forall x :: x in longer ==> x in queue || LinksTo(entries, x)
      invariant Followed(entries, i, found, longer)
    {
      var candidates := Candidates(entries[i]);
      ghost var before := longer;
      var j := 0;
      while j < |candidates|
        invariant 0 <= j <= |candidates|
        invariant before <= longer && queue <= longer
        invariant forall x :: x in longer ==> x in queue || LinksTo(entries, x)
        invariant forall b :: Some(b) in candidates[..j] ==> b in found || b in longer
      {
        assert candidates[..j + 1] == candidates[..j] + [candidates[j]];
        if candidates[j].Some? && candidates[j].value !in found {
          CandidatesAreLinks(entries[i], candidates[j].value);
          longer := longer + [candidates[j].value];
        }
        j := j + 1;
      }
      forall b | LinksTo(entries[..i + 1], b) ensures b in found || b in longer {
        var m :| 0 <= m < |entries[..i + 1]| && EntryLinksTo(entries[..i + 1][m], b);
        if m < i {
          assert entries[..i][m] == entries[m];
          assert LinksTo(entries[..i], b);
        } else {
          CandidatesAreLinks(entries[i], b);
          assert candidates[..j] == candidates;
        }
      }
      i := i + 1;
    }
    assert entries[..i] == entries;
  }

  ghost predicate Exploring(store: Store, prefixes: seq<Name>, found: seq<Name>, queue: seq<Name>) {
    && (forall x :: x in found || x in queue ==> Reachable(store, prefixes, x) && x in Universe(store, prefixes))
    && (forall r :: r in Roots(store.dirs, prefixes) ==> r in found || r in queue)
    && (forall a, b :: a in found && Linked(store, a, b) ==> b in found || b in queue)
    && (forall i, j :: 0 <= i < j < |found| ==> found[i] != found[j])
  }

  /** A name already found is dropped from the queue. */
  lemma DropKeepsExploring(store: Store, prefixes: seq<Name>, found: seq<Name>, queue: seq<Name>, dir: Name)
    requires Exploring(store, prefixes, found, queue + [dir]) && dir in found
    ensures Exploring(store, prefixes, found, queue)
  {
    forall x | x in queue ensures x in queue + [dir] {}
    forall x | x in queue + [dir] && x !in queue ensures x in found {}
  }

  /** The entries of a directory's `node_modules`; none when it has none. */
  function EntriesOf(store: Store, dir: Name): seq<Entry> {
    if dir in store.links then store.links[dir] else []
  }

  /** A name not found before is found now, and what it links to is queued: the unexplored names get fewer. */
  lemma VisitKeepsExploring(
    store: Store, prefixes: seq<Name>, found: seq<Name>, queue: seq<Name>, dir: Name, longer: seq<Name>
  )
    requires Exploring(store, prefixes, found, queue + [dir]) && dir !in found
    requires queue <= longer
    requires forall x :: x in longer ==> x in queue || LinksTo(EntriesOf(store, dir), x)
    requires forall b :: LinksTo(EntriesOf(store, dir), b) ==> b in found + [dir] || b in longer
    ensures Exploring(store, prefixes, found + [dir], longer)
    ensures Universe(store, prefixes) - NamesOf(found + [dir]) < Universe(store, prefixes) - NamesOf(found)
  {
    hide Reachable, Roots, Universe;
    var found' := found + [dir];
    assert dir in queue + [dir];
    forall x | x in found' || x in longer
      ensures Reachable(store, prefixes, x) && x in Universe(store, prefixes)
    {
      if x in found || x in queue {
        assert x in queue ==> x in queue + [dir];
      } else if x != dir {
        assert Linked(store, dir, x);
        LinkIsReachable(store, prefixes, dir, x);
        LinkedIsKnown(store, prefixes, dir, x);
      }
    }
    forall x | x in found || x in queue + [dir] ensures x in found' || x in longer {}
    forall a, b | a in found' && Linked(store, a, b) ensures b in found' || b in longer {
      if a in found {
        assert b in found || b in queue + [dir];
      }
    }
    assert NamesOf(found') == NamesOf(found) + {dir};
    assert dir in Universe(store, prefixes) - NamesOf(found);
  }

  /** With nothing queued, what has been found is what is reachable. */
  lemma ExploredIsReachable(store: Store, prefixes: seq<Name>, found: seq<Name>)
    requires Exploring(store, prefixes, found, [])
    ensures forall x :: x in found <==> Reachable(store, prefixes, x)
    ensures forall i, j :: 0 <= i < j < |found| ==> found[i] != found[j]
  {
    forall x | Reachable(store, prefixes, x) ensures x in found {
      var path :| IsPath(store, prefixes, path) && path[|path| - 1] == x;
      ClosedHoldsPaths(store, prefixes, found, path);
    }
  }

  lemma {:induction false} RootsStart(store: Store, prefixes: seq<Name>)
    ensures Exploring(store, prefixes, [], Roots(store.dirs, prefixes))
  {
    forall x | x in Roots(store.dirs, prefixes) ensures Reachable(store, prefixes, x) {
      RootIsReachable(store, prefixes, x);
    }
  }

  /**
   * Terminates on every finite link graph, cyclic or not, and returns exactly the
   * store directories reachable from the roots, sorted and without repeats.
   */
  method DependencyClosure(store: Store, rootPrefixes: seq<Name>) returns (closure: seq<Name>)
    ensures forall x :: x in closure <==> Reachable(store, rootPrefixes, x)
    ensures Ascending(closure)
  {
    hide *;
    var found: seq<Name> := [];
    var queue := Roots(store.dirs, rootPrefixes);
    RootsStart(store, rootPrefixes);
    while |queue| > 0
      invariant Exploring(store, rootPrefixes, found, queue)
      decreases Universe(store, rootPrefixes) - NamesOf(found), |queue|
    {
      var dir := queue[|queue| - 1];
      ghost var before := queue;
      queue := queue[..|queue| - 1];
      assert before == queue + [dir];
      if dir in found {
        DropKeepsExploring(store, rootPrefixes, found, queue, dir);
      } else {
        ghost var rest := queue;
        found := found + [dir];
        var entries := EntriesOf(store, dir);
        queue := PushLinks(entries, found, queue);
        VisitKeepsExploring(store, rootPrefixes, found[..|found| - 1], rest, dir, queue);
        assert found[..|found| - 1] + [dir] == found;
      }
    }
    assert queue == [];
    ExploredIsReachable(store, rootPrefixes, found);
    SortedAscends(found);
    closure := Sorted(found);
  }
}
