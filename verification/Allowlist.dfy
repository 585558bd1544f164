/**
  * runtime/tracer/forbid_paths.c: everything outside a list of forbidden paths is allowed by walking the file tree
  * and adding rules, each of which grants rights to a whole subtree.
  */
module Allowlist {
  // ----- Paths

  type Path = seq<string>

  predicate ValidName(s: string) {
    s != [] && '/' !in s
  }

  predicate ValidPath(p: Path) {
    forall i :: 0 <= i < |p| ==> ValidName(p[i])
  }

  /** The absolute name of a path. */
  function Str(p: Path): string {
    if p == [] then "/" else Tail(p)
  }

  function Tail(p: Path): string {
    if p == [] then "" else "/" + p[0] + Tail(p[1..])
  }

  /** `u` is a prefix of `v` that ends at the end of a segment. */
  predicate Within(u: string, v: string) {
    u <= v && (|v| == |u| || v[|u|] == '/')
  }

  /** Whether `prefix` ends in `path` at the end of a segment. */
  predicate HasPrefix(path: string, prefix: string) {
    prefix == "/" || Within(prefix, path)
  }

  /** path_has_segment_prefix: both strings are compared character by character. */
  method HasSegmentPrefix(path: string, prefix: string) returns (r: bool)
    ensures r <==> HasPrefix(path, prefix)
  {
    if prefix == "/" {
      return true;
    }
    var i: nat := 0;
    while i < |path| && i < |prefix| && path[i] == prefix[i]
      invariant i <= |path| && i <= |prefix| && path[..i] == prefix[..i]
    {
      i := i + 1;
    }
    if i == |prefix| && (i == |path| || path[i] == '/') {
      return true;
    }
    return false;
  }

  function FirstSlash(s: string): (n: nat)
    ensures n <= |s| && '/' !in s[..n] && (n < |s| ==> s[n] == '/')
  {
    if s == "" || s[0] == '/' then 0 else 1 + FirstSlash(s[1..])
  }

  /** Where the first slash is does not depend on how it is found. */
  lemma FirstSlashIs(s: string, n: nat)
    requires n <= |s| && (n < |s| ==> s[n] == '/') && forall i :: 0 <= i < n ==> s[i] != '/'
    ensures FirstSlash(s) == n
  {
    var m := FirstSlash(s);
    assert forall i :: 0 <= i < m ==> s[i] in s[..m];
  }

  lemma NameIsFirst(x: string, s: string)
    requires ValidName(x) && (s == "" || s[0] == '/')
    ensures FirstSlash(x + s) == |x|
  {
    assert forall i :: 0 <= i < |x| ==> x[i] in x;
    FirstSlashIs(x + s, |x|);
  }

  lemma WithinSameFirst(u: string, v: string)
    requires Within(u, v)
    ensures FirstSlash(v) == FirstSlash(u)
  {
    var n := FirstSlash(u);
    assert forall i :: 0 <= i < n ==> u[i] in u[..n];
    FirstSlashIs(v, n);
  }

  lemma SameFirst(x: string, s: string, y: string, t: string)
    requires ValidName(x) && ValidName(y) && (s == "" || s[0] == '/') && (t == "" || t[0] == '/')
    ensures Within(x + s, y + t) <==> x == y && Within(s, t)
  {
    var u, v := x + s, y + t;
    NameIsFirst(x, s);
    NameIsFirst(y, t);
    if Within(u, v) {
      WithinSameFirst(u, v);
      assert x == u[..|x|] && y == v[..|x|];
      assert s == u[|x|..] && t == v[|x|..];
    }
  }

  lemma TailStarts(p: Path)
    requires ValidPath(p)
    ensures if p == [] then Tail(p) == "" else Tail(p)[0] == '/' && |Tail(p)| > 1
  {
  }

  lemma {:induction false} TailWithin(b: Path, a: Path)
    requires ValidPath(a) && ValidPath(b)
    ensures Within(Tail(b), Tail(a)) <==> b <= a
  {
    TailStarts(a);
    TailStarts(b);
    if a != [] && b != [] {
      var s, t := Tail(b[1..]), Tail(a[1..]);
      TailStarts(a[1..]);
      TailStarts(b[1..]);
      TailWithin(b[1..], a[1..]);
      TailsWithin(b[0], s, a[0], t, Tail(b), Tail(a));
      PrefixCons(b, a);
    }
  }

  /** One path is within another exactly when their first names are the same and the rest is within the rest. */
  lemma TailsWithin(x: string, s: string, y: string, t: string, u: string, v: string)
    requires ValidName(x) && ValidName(y) && (s == "" || s[0] == '/') && (t == "" || t[0] == '/')
    requires u == "/" + x + s && v == "/" + y + t
    ensures Within(u, v) <==> x == y && Within(s, t)
  {
    assert u == "/" + (x + s) && v == "/" + (y + t);
    Behind("/", x + s, y + t);
    SameFirst(x, s, y, t);
  }

  lemma PrefixCons(b: Path, a: Path)
    requires a != [] && b != []
    ensures b <= a <==> b[0] == a[0] && b[1..] <= a[1..]
  {
    assert b == [b[0]] + b[1..] && a == [a[0]] + a[1..];
  }

  lemma Behind(h: string, u: string, v: string)
    ensures Within(h + u, h + v) <==> Within(u, v)
  {
    if Within(h + u, h + v) {
      assert u == (h + u)[|h|..] && v == (h + v)[|h|..];
    }
  }

  /** The character loop decides whether one path is a prefix of the other, segment by segment. */
  lemma PrefixIsBySegments(path: Path, prefix: Path)
    requires ValidPath(path) && ValidPath(prefix)
    ensures HasPrefix(Str(path), Str(prefix)) <==> prefix <= path
  {
    TailStarts(path);
    TailStarts(prefix);
    TailWithin(prefix, path);
  }

  lemma StrIsInjective(a: Path, b: Path)
    requires ValidPath(a) && ValidPath(b)
    ensures Str(a) == Str(b) <==> a == b
  {
    PrefixIsBySegments(a, b);
    PrefixIsBySegments(b, a);
    TailStarts(a);
    TailStarts(b);
  }

  // ----- The walk

  datatype Kind = Dir | UnreadableDir | File | Link

  datatype Tree = Tree(kind: Kind, children: seq<Entry>)

  datatype Entry = Entry(name: string, tree: Tree)

  datatype Right = Execute | ReadFile | ReadDir | WriteFile | Truncate | Refer
                 | RemoveDir | RemoveFile | MakeChar | MakeDir | MakeReg | MakeSock | MakeFifo | MakeBlock | MakeSym

  const ALL: set<Right> := {Execute, ReadFile, ReadDir, WriteFile, Truncate, Refer,
                            RemoveDir, RemoveFile, MakeChar, MakeDir, MakeReg, MakeSock, MakeFifo, MakeBlock, MakeSym}
  const FOR_FILES: set<Right> := {Execute, WriteFile, ReadFile, Truncate}

  /** A rule grants its rights to everything at or below its path. */
  datatype Rule = Rule(path: Path, kind: Kind, rights: set<Right>)

  datatype Action = Continue | SkipSubtree | Stop

  datatype Verdict = Verdict(action: Action, rules: seq<Rule>)

  predicate IsDir(k: Kind) {
    k == Dir || k == UnreadableDir
  }

  /** The rights a rule asks for, by kind of file. */
  function Rights(k: Kind, shallow: bool): set<Right> {
    if !IsDir(k) then FOR_FILES else if shallow then {ReadDir} else ALL
  }

  ghost predicate Above(p: Path, forbidden: seq<Path>) {
    exists i :: 0 <= i < |forbidden| && p <= forbidden[i]
  }

  ghost predicate Under(p: Path, forbidden: seq<Path>) {
    exists i :: 0 <= i < |forbidden| && forbidden[i] <= p
  }

  /** What is decided about one path; `fails` says whether the rule cannot be added. */
  ghost function Decide(p: Path, k: Kind, forbidden: seq<Path>, fails: bool): Verdict {
    if p in forbidden || k == Link then Verdict(SkipSubtree, [])
    else if Above(p, forbidden) then
      if fails then Verdict(Stop, []) else Verdict(Continue, [Rule(p, k, Rights(k, true))])
    else if fails && !("/proc/" <= Str(p)) then Verdict(Stop, [])
    else Verdict(if IsDir(k) then SkipSubtree else Continue, if fails then [] else [Rule(p, k, Rights(k, false))])
  }

  function Names(ps: seq<Path>): seq<string> {
    seq(|ps|, i requires 0 <= i < |ps| => Str(ps[i]))
  }

  /** forbid_deep_or_shallow works on names only. */
  method Visit(p: Path, k: Kind, names: seq<string>, fails: bool, ghost forbidden: seq<Path>) returns (v: Verdict)
    requires names == Names(forbidden) && ValidPath(p) && forall i :: 0 <= i < |forbidden| ==> ValidPath(forbidden[i])
    ensures v == Decide(p, k, forbidden, fails)
    ensures v.action == Stop <==>
              p !in forbidden && k != Link && fails && (Above(p, forbidden) || !("/proc/" <= Str(p)))
    ensures v.rules == [] <==> p in forbidden || k == Link || fails
  {
    var contains, isForbidden := false, false;
    var i: nat := 0;
    while i < |names| && !isForbidden
      invariant i <= |names|
      invariant isForbidden <==> p in forbidden[..i]
      invariant contains <==> Above(p, forbidden[..i])
    {
      PrefixIsBySegments(forbidden[i], p);
      StrIsInjective(forbidden[i], p);
      var matches := HasSegmentPrefix(names[i], Str(p));
      AboveNext(p, forbidden, i);
      contains := contains || matches;
      isForbidden := isForbidden || names[i] == Str(p);
      i := i + 1;
    }
    assert !isForbidden ==> forbidden[..i] == forbidden;
    if isForbidden || k == Link {
      return Verdict(SkipSubtree, []);
    }
    if contains {
      return if fails then Verdict(Stop, []) else Verdict(Continue, [Rule(p, k, Rights(k, true))]);
    }
    if fails && !("/proc/" <= Str(p)) {
      return Verdict(Stop, []);
    }
    return Verdict(if IsDir(k) then SkipSubtree else Continue, if fails then [] else [Rule(p, k, Rights(k, false))]);
  }

  lemma AboveNext(p: Path, forbidden: seq<Path>, i: nat)
    requires i < |forbidden|
    ensures Above(p, forbidden[..i + 1]) <==> Above(p, forbidden[..i]) || p <= forbidden[i]
    ensures p in forbidden[..i + 1] <==> p in forbidden[..i] || p == forbidden[i]
  {
    assert forbidden[..i + 1] == forbidden[..i] + [forbidden[i]];
    if Above(p, forbidden[..i]) {
      var j :| 0 <= j < i && p <= forbidden[..i][j];
      assert forbidden[..i + 1][j] == forbidden[..i][j];
    }
    assert forbidden[..i + 1][i] == forbidden[i];
  }

  /** The rules added by walking a tree from its top down, and whether the walk was stopped by an error. */
  datatype Walked = Walked(rules: seq<Rule>, stopped: bool)

  ghost function Walk(t: Tree, p: Path, forbidden: seq<Path>, fails: Path -> bool): Walked
    decreases t, 1
  {
    var v := Decide(p, t.kind, forbidden, fails(p));
    if v.action == Stop then Walked(v.rules, true)
    else if v.action == Continue && t.kind == Dir then
      var w := WalkAll(t.children, p, forbidden, fails);
      Walked(v.rules + w.rules, w.stopped)
    else Walked(v.rules, false)
  }

  ghost function WalkAll(es: seq<Entry>, p: Path, forbidden: seq<Path>, fails: Path -> bool): Walked
    decreases es, 0
  {
    if es == [] then Walked([], false)
    else
      var w := Walk(es[0].tree, p + [es[0].name], forbidden, fails);
      if w.stopped then w
      else
        var more := WalkAll(es[1..], p, forbidden, fails);
        Walked(w.rules + more.rules, more.stopped)
  }

  // ----- What the rules grant

  ghost function Granted(rules: seq<Rule>, q: Path): set<Right> {
    if rules == [] then {}
    else (if rules[0].path <= q then rules[0].rights else {}) + Granted(rules[1..], q)
  }

  lemma {:induction false} GrantedBy(rules: seq<Rule>, q: Path, x: Right)
    ensures x in Granted(rules, q) <==> exists i :: 0 <= i < |rules| && rules[i].path <= q && x in rules[i].rights
  {
    if rules != [] {
      GrantedBy(rules[1..], q, x);
      if x in Granted(rules[1..], q) {
        var i :| 0 <= i < |rules| - 1 && rules[1..][i].path <= q && x in rules[1..][i].rights;
        assert rules[i + 1] == rules[1..][i];
      }
      if i :| 0 <= i < |rules| && rules[i].path <= q && x in rules[i].rights {
        assert i > 0 ==> rules[1..][i - 1] == rules[i];
      }
    }
  }

  // ----- Nothing forbidden is allowed

  /** Only directories have children, and their names differ. */
  ghost predicate WellNamed(t: Tree)
    decreases t
  {
    && (t.children != [] ==> IsDir(t.kind))
    && (forall i :: 0 <= i < |t.children| ==> WellNamed(t.children[i].tree))
    && (forall i, j :: 0 <= i < j < |t.children| ==> t.children[i].name != t.children[j].name)
  }

  /** A file of kind `k` is at path `q` of the tree. */
  ghost predicate Has(t: Tree, q: Path, k: Kind)
    decreases |q|
  {
    if q == [] then t.kind == k
    else exists i :: 0 <= i < |t.children| && t.children[i].name == q[0] && Has(t.children[i].tree, q[1..], k)
  }

  /** Whatever lies above something is a directory. */
  lemma {:induction false} AboveIsDir(t: Tree, a: Path, k: Kind, q: Path, l: Kind)
    requires WellNamed(t) && a <= q && |a| < |q| && Has(t, a, k) && Has(t, q, l)
    ensures IsDir(k)
    decreases |a|
  {
    var j :| 0 <= j < |t.children| && t.children[j].name == q[0] && Has(t.children[j].tree, q[1..], l);
    if a != [] {
      var i :| 0 <= i < |t.children| && t.children[i].name == a[0] && Has(t.children[i].tree, a[1..], k);
      PrefixCons(a, q);
      assert i == j;
      AboveIsDir(t.children[i].tree, a[1..], k, q[1..], l);
    }
  }

  /** No forbidden path is properly above `p`. */
  ghost predicate NotBelow(p: Path, forbidden: seq<Path>) {
    forall i :: 0 <= i < |forbidden| && forbidden[i] <= p ==> forbidden[i] == p
  }

  /** A rule for a file of the tree at `p`, not a link, not under a forbidden path, and shallow if above one. */
  ghost predicate RuleOk(r: Rule, t: Tree, p: Path, forbidden: seq<Path>) {
    && p <= r.path && Has(t, r.path[|p|..], r.kind)
    && !Under(r.path, forbidden) && r.kind != Link
    && (Above(r.path, forbidden) ==> r.rights == Rights(r.kind, true))
  }

  ghost predicate RulesOk(rules: seq<Rule>, t: Tree, p: Path, forbidden: seq<Path>) {
    forall i :: 0 <= i < |rules| ==> RuleOk(rules[i], t, p, forbidden)
  }

  lemma UnderIsSelf(p: Path, forbidden: seq<Path>)
    requires NotBelow(p, forbidden) && Under(p, forbidden)
    ensures p in forbidden
  {
    var i :| 0 <= i < |forbidden| && forbidden[i] <= p;
    assert forbidden[i] == p;
  }

  lemma NotBelowChild(p: Path, name: string, forbidden: seq<Path>)
    requires NotBelow(p, forbidden) && p !in forbidden
    ensures NotBelow(p + [name], forbidden)
  {
    forall i | 0 <= i < |forbidden| && forbidden[i] <= p + [name] ensures forbidden[i] == p + [name] {
      ShorterPrefix(forbidden[i], p, name);
      assert forbidden[i] in forbidden;
    }
  }

  lemma ShorterPrefix(f: Path, p: Path, name: string)
    requires f <= p + [name]
    ensures f == p + [name] || f <= p
  {
    var q := p + [name];
    assert f == q[..|f|];
    assert |f| <= |p| ==> q[..|f|] == p[..|f|];
  }

  lemma RuleUp(r: Rule, t: Tree, i: nat, p: Path, forbidden: seq<Path>)
    requires i < |t.children| && RuleOk(r, t.children[i].tree, p + [t.children[i].name], forbidden)
    ensures RuleOk(r, t, p, forbidden)
  {
    var name := t.children[i].name;
    var rest := r.path[|p|..];
    assert r.path == p + [name] + r.path[|p| + 1..];
    assert rest[0] == name && rest[1..] == r.path[|p| + 1..];
  }

  lemma {:induction false} WalkRules(t: Tree, p: Path, forbidden: seq<Path>, fails: Path -> bool)
    requires NotBelow(p, forbidden)
    ensures RulesOk(Walk(t, p, forbidden, fails).rules, t, p, forbidden)
    decreases t, 1
  {
    var v := Decide(p, t.kind, forbidden, fails(p));
    assert p[|p|..] == [];
    assert RulesOk(v.rules, t, p, forbidden) by {
      if Under(p, forbidden) {
        UnderIsSelf(p, forbidden);
      }
    }
    if v.action == Continue && t.kind == Dir {
      WalkAllRules(t, 0, p, forbidden, fails);
      assert t.children[0..] == t.children;
    }
  }

  lemma {:induction false} WalkAllRules(t: Tree, n: nat, p: Path, forbidden: seq<Path>, fails: Path -> bool)
    requires NotBelow(p, forbidden) && p !in forbidden && n <= |t.children|
    ensures RulesOk(WalkAll(t.children[n..], p, forbidden, fails).rules, t, p, forbidden)
    decreases t, 0, |t.children| - n
  {
    if n < |t.children| {
      var e := t.children[n];
      assert t.children[n..][0] == e && t.children[n..][1..] == t.children[n + 1..];
      NotBelowChild(p, e.name, forbidden);
      WalkRules(e.tree, p + [e.name], forbidden, fails);
      var w := Walk(e.tree, p + [e.name], forbidden, fails);
      forall i | 0 <= i < |w.rules| ensures RuleOk(w.rules[i], t, p, forbidden) {
        RuleUp(w.rules[i], t, n, p, forbidden);
      }
      WalkAllRules(t, n + 1, p, forbidden, fails);
    }
  }

  /**
    * A forbidden path, and whatever lies below it, gets at most the right to read directories. It gets that one from
    * the rule for the root, which covers everything, and gets none exactly when the root is itself forbidden or the
    * rule for it cannot be added.
    */
  lemma ForbiddenStaysForbidden(root: Tree, q: Path, k: Kind, forbidden: seq<Path>, fails: Path -> bool)
    requires WellNamed(root) && Has(root, q, k) && Under(q, forbidden)
    ensures Granted(Walk(root, [], forbidden, fails).rules, q) <= {ReadDir}
    ensures Granted(Walk(root, [], forbidden, fails).rules, q)
            == if [] in forbidden || fails([]) then {} else {ReadDir}
  {
    WalkRules(root, [], forbidden, fails);
    RulesGrantLittle(Walk(root, [], forbidden, fails).rules, root, q, k, forbidden);
    RootRule(root, q, k, forbidden, fails);
  }

  lemma RootRule(root: Tree, q: Path, k: Kind, forbidden: seq<Path>, fails: Path -> bool)
    requires WellNamed(root) && Has(root, q, k) && Under(q, forbidden)
    ensures var rules := Walk(root, [], forbidden, fails).rules;
            if [] in forbidden || fails([]) then rules == [] else ReadDir in Granted(rules, q)
  {
    var i :| 0 <= i < |forbidden| && forbidden[i] <= q;
    var p: Path := [];
    assert p <= forbidden[i] && Above(p, forbidden);
    assert q == [] ==> forbidden[i] == p;
    if p !in forbidden && !fails(p) {
      var rules := Walk(root, p, forbidden, fails).rules;
      assert rules[0] == Rule(p, root.kind, Rights(root.kind, true)) && p <= q;
    }
  }

  lemma {:induction false} RulesGrantLittle(rules: seq<Rule>, root: Tree, q: Path, k: Kind, forbidden: seq<Path>)
    requires WellNamed(root) && Has(root, q, k) && Under(q, forbidden) && RulesOk(rules, root, [], forbidden)
    ensures Granted(rules, q) <= {ReadDir}
    decreases |rules|
  {
    if rules != [] {
      RulesGrantLittle(rules[1..], root, q, k, forbidden);
      if rules[0].path <= q {
        RuleGrantsLittle(rules[0], root, q, k, forbidden);
      }
    }
  }

  lemma RuleGrantsLittle(r: Rule, root: Tree, q: Path, k: Kind, forbidden: seq<Path>)
    requires WellNamed(root) && Has(root, q, k) && Under(q, forbidden)
    requires RuleOk(r, root, [], forbidden) && r.path <= q
    ensures r.rights == {ReadDir}
  {
    var j :| 0 <= j < |forbidden| && forbidden[j] <= q;
    assert r.path[0..] == r.path;
    Comparable(r.path, forbidden[j], q);
    AboveIsDir(root, r.path, r.kind, q, k);
  }

  lemma Comparable(a: Path, b: Path, q: Path)
    requires a <= q && b <= q
    ensures a <= b || b <= a
    ensures !(b <= a) ==> |a| < |q|
  {
    assert a == q[..|a|] && b == q[..|b|];
  }

  // ----- Everything else is allowed

  /** A file of kind `k` that the walk can get to: through readable directories, and not a link. */
  ghost predicate Reach(t: Tree, q: Path, k: Kind)
    decreases |q|
  {
    if q == [] then t.kind == k && k != Link
    else t.kind == Dir && exists i ::
              0 <= i < |t.children| && t.children[i].name == q[0] && Reach(t.children[i].tree, q[1..], k)
  }

  ghost predicate FullRule(r: Rule, q: Path, k: Kind) {
    r.path <= q && Rights(k, false) <= r.rights
  }

  ghost predicate SomeFull(rules: seq<Rule>, q: Path, k: Kind) {
    exists i :: 0 <= i < |rules| && FullRule(rules[i], q, k)
  }

  lemma FullIn(a: seq<Rule>, b: seq<Rule>, q: Path, k: Kind)
    requires SomeFull(a, q, k) || SomeFull(b, q, k)
    ensures SomeFull(a + b, q, k)
  {
    if SomeFull(a, q, k) {
      var i :| 0 <= i < |a| && FullRule(a[i], q, k);
      assert (a + b)[i] == a[i];
    } else {
      var i :| 0 <= i < |b| && FullRule(b[i], q, k);
      assert (a + b)[|a| + i] == b[i];
    }
  }

  lemma UnderIsUp(p: Path, q: Path, forbidden: seq<Path>)
    requires p <= q && p in forbidden
    ensures Under(q, forbidden)
  {
    var i :| 0 <= i < |forbidden| && forbidden[i] == p;
  }

  lemma {:induction false} WalkReaches(t: Tree, p: Path, rest: Path, k: Kind, forbidden: seq<Path>, fails: Path -> bool)
    requires Reach(t, rest, k) && !Under(p + rest, forbidden) && !Above(p + rest, forbidden)
    requires forall m: Path :: m <= p + rest ==> !fails(m)
    requires !Walk(t, p, forbidden, fails).stopped
    ensures SomeFull(Walk(t, p, forbidden, fails).rules, p + rest, k)
    decreases t, 1
  {
    var q := p + rest;
    if p in forbidden {
      UnderIsUp(p, q, forbidden);
    }
    var v := Decide(p, t.kind, forbidden, fails(p));
    if Above(p, forbidden) {
      assert rest == [] ==> p == q;
      var i :| 0 <= i < |t.children| && t.children[i].name == rest[0] && Reach(t.children[i].tree, rest[1..], k);
      assert t.children[0..] == t.children;
      WalkAllReaches(t, 0, i, p, rest, k, forbidden, fails);
      FullIn(v.rules, WalkAll(t.children, p, forbidden, fails).rules, q, k);
    } else {
      assert FullRule(v.rules[0], q, k);
      FullIn(v.rules, [], q, k);
    }
  }

  lemma {:induction false} WalkAllReaches(t: Tree, n: nat, i: nat, p: Path, rest: Path, k: Kind, forbidden: seq<Path>,
                                          fails: Path -> bool)
    requires n <= i < |t.children| && rest != [] && t.children[i].name == rest[0]
             && Reach(t.children[i].tree, rest[1..], k)
    requires !Under(p + rest, forbidden) && !Above(p + rest, forbidden)
    requires forall m: Path :: m <= p + rest ==> !fails(m)
    requires !WalkAll(t.children[n..], p, forbidden, fails).stopped
    ensures SomeFull(WalkAll(t.children[n..], p, forbidden, fails).rules, p + rest, k)
    decreases t, 0, i - n
  {
    var e := t.children[n];
    assert t.children[n..][0] == e && t.children[n..][1..] == t.children[n + 1..];
    var w := Walk(e.tree, p + [e.name], forbidden, fails);
    if n == i {
      assert p + [e.name] + rest[1..] == p + rest;
      WalkReaches(e.tree, p + [e.name], rest[1..], k, forbidden, fails);
    } else {
      WalkAllReaches(t, n + 1, i, p, rest, k, forbidden, fails);
    }
    FullIn(w.rules, WalkAll(t.children[n + 1..], p, forbidden, fails).rules, p + rest, k);
  }

  lemma NoOtherRight(x: Right)
    ensures x in ALL
  {
    assert x.Execute? || x.ReadFile? || x.ReadDir? || x.WriteFile? || x.Truncate? || x.Refer? || x.RemoveDir?
           || x.RemoveFile? || x.MakeChar? || x.MakeDir? || x.MakeReg? || x.MakeSock? || x.MakeFifo? || x.MakeBlock?
           || x.MakeSym?;
  }

  /** A file that is neither under nor above a forbidden path gets every right that applies to it. */
  lemma AllElseIsAllowed(root: Tree, q: Path, k: Kind, forbidden: seq<Path>, fails: Path -> bool)
    requires Reach(root, q, k) && !Under(q, forbidden) && !Above(q, forbidden)
    requires !Walk(root, [], forbidden, fails).stopped && forall m: Path :: m <= q ==> !fails(m)
    ensures Rights(k, false) <= Granted(Walk(root, [], forbidden, fails).rules, q)
    ensures k == Dir || k == UnreadableDir ==>
              forall x: Right :: x in Granted(Walk(root, [], forbidden, fails).rules, q)
    ensures k == File ==> {Execute, ReadFile, WriteFile, Truncate} <= Granted(Walk(root, [], forbidden, fails).rules, q)
  {
    var rules := Walk(root, [], forbidden, fails).rules;
    assert [] + q == q;
    WalkReaches(root, [], q, k, forbidden, fails);
    var i :| 0 <= i < |rules| && FullRule(rules[i], q, k);
    forall x | x in Rights(k, false) ensures x in Granted(rules, q) {
      GrantedBy(rules, q, x);
    }
    if IsDir(k) {
      forall x: Right ensures x in Granted(rules, q) {
        NoOtherRight(x);
      }
    }
  }
}
