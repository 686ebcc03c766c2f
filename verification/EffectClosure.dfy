/** The call-graph closure of the real-time guard: which effects a test can reach through
    calls, self-calls, fixture parameters and the autouse fixtures that apply to it. */
module EffectClosure {
  import opened Wrappers

  type Name = string
  /** A definition's qualified name as its path; all but the last part is its scope. */
  type Path = seq<Name>
  type Effect = string

  datatype Def = Def(effects: set<Effect>, moduleCalls: seq<Path>, selfCalls: seq<Name>, params: seq<Name>)

  /** One test file: its definitions, which of them are fixtures, and which are autouse. */
  datatype File = File(defs: map<Path, Def>, fixtures: set<Path>, autouse: set<Path>)

  function ScopeOf(q: Path): Path {
    if q == [] then [] else q[..|q| - 1]
  }

  // ---- fixtures ----------------------------------------------------------------------

  /** The fixture `name` seen from `scope`: innermost enclosing class first. */
  function Resolve(f: File, name: Name, scope: Path): Option<Path>
    decreases |scope|
  {
    if scope + [name] in f.fixtures then Some(scope + [name])
    else if scope == [] then None
    else Resolve(f, name, ScopeOf(scope))
  }

  /** `Resolve` finds the fixture of the longest enclosing scope that has one. */
  lemma {:induction false} ResolveIsInnermost(f: File, name: Name, scope: Path)
    ensures var r := Resolve(f, name, scope);
            && (r.Some? ==> r.value in f.fixtures && r.value != [] && ScopeOf(r.value) <= scope
                            && r.value[|r.value| - 1] == name)
            && forall s: Path :: s <= scope && s + [name] in f.fixtures ==>
                 r.Some? && |s| < |r.value|
    decreases |scope|
  {
    if scope + [name] in f.fixtures {
    } else if scope != [] {
      ResolveIsInnermost(f, name, ScopeOf(scope));
      forall s: Path | s <= scope && s + [name] in f.fixtures
        ensures s <= ScopeOf(scope)
      {
        assert s != scope;
      }
    }
  }

  /** `resolve_fixture` */
  method ResolveFixture(f: File, name: Name, from: Path) returns (r: Option<Path>)
    ensures r == Resolve(f, name, ScopeOf(from))
  {
    var scope := ScopeOf(from);
    while true
      invariant Resolve(f, name, scope) == Resolve(f, name, ScopeOf(from))
      decreases |scope|
    {
      var candidate := scope + [name];
      if candidate in f.fixtures {
        return Some(candidate);
      }
      if scope == [] {
        return None;
      }
      scope := ScopeOf(scope);
    }
  }

  /** `applicable_autouse`: the module's and the enclosing classes' autouse fixtures. */
  function ApplicableAutouse(f: File, from: Path): set<Path> {
    set q | q in f.autouse && ScopeOf(q) <= ScopeOf(from)
  }

  // ---- names as the source writes them -----------------------------------------------

  /** A name in a qualified name: not empty, no dot. */
  predicate Plain(n: Name) {
    n != "" && '.' !in n
  }

  ghost predicate PlainPath(p: Path) {
    forall i :: 0 <= i < |p| ==> Plain(p[i])
  }

  /** A path written with dots. */
  function Dotted(p: Path): string {
    if p == [] then "" else if |p| == 1 then p[0] else p[0] + "." + Dotted(p[1..])
  }

  lemma DottedOne(n: Name)
    ensures Dotted([n]) == n
  {
  }

  lemma {:induction false} DottedSnoc(p: Path, n: Name)
    requires p != []
    ensures Dotted(p + [n]) == Dotted(p) + "." + n
  {
    if |p| == 1 {
      assert (p + [n])[1..] == [n];
    } else {
      assert (p + [n])[1..] == p[1..] + [n];
      DottedSnoc(p[1..], n);
    }
  }

  /** The scope of a definition is its dotted name up to the last dot. */
  lemma ScopeIsBeforeLastDot(q: Path)
    requires PlainPath(q) && q != []
    ensures var last := q[|q| - 1];
            '.' !in last && Dotted(q) == if ScopeOf(q) == [] then last else Dotted(ScopeOf(q)) + "." + last
  {
    hide Dotted;
    var home, last := ScopeOf(q), q[|q| - 1];
    assert Plain(last);
    assert q == home + [last];
    if home != [] {
      DottedSnoc(home, last);
    } else {
      assert q == [last];
      DottedOne(last);
    }
  }

  lemma {:induction false} DottedNotEmpty(p: Path)
    requires PlainPath(p) && p != []
    ensures Dotted(p) != ""
  {
    assert Plain(p[0]);
  }

  lemma SamePlace(u: string, v: string, k: nat)
    ensures u <= v && k < |u| ==> u[k] == v[k]
  {
  }

  /** The first name is what stands before the first dot. */
  lemma FirstName(a: Name, x: string, b: Name, y: string)
    requires Plain(a) && Plain(b) && a + "." + x <= b + "." + y
    ensures a == b && x <= y
  {
    var u, v := a + "." + x, b + "." + y;
    assert u[|a|] == '.' && v[|b|] == '.';
    assert forall i :: 0 <= i < |u| ==> u[i] == v[i];
    assert forall i :: 0 <= i < |a| ==> u[i] == a[i] && a[i] != '.';
    assert forall i :: 0 <= i < |b| ==> v[i] == b[i] && b[i] != '.';
    SamePlace(u, v, |a|);
    SamePlace(u, v, |b|);
    assert a == u[..|a|] == v[..|b|] == b;
    assert x == u[|a| + 1..] && y == v[|b| + 1..];
    assert u == v[..|u|];
    assert x == y[..|x|];
  }

  lemma {:induction false} DottedStarts(q: Path, p: Path)
    requires PlainPath(q) && PlainPath(p) && q != []
    ensures Dotted(q) + "." <= Dotted(p) <==> q < p
  {
    assert Plain(q[0]);
    if p == [] {
    } else {
      assert Plain(p[0]);
      if |p| == 1 {
        OneNameOnly(q, p[0]);
      } else if |q| == 1 {
        assert Dotted(p) == p[0] + "." + Dotted(p[1..]);
        if Dotted(q) + "." <= Dotted(p) {
          assert q[0] + "." + "" == q[0] + ".";
          FirstName(q[0], "", p[0], Dotted(p[1..]));
        }
        if q < p {
          assert Dotted(p)[..|q[0]| + 1] == q[0] + ".";
        }
      } else {
        var q', p' := q[1..], p[1..];
        assert PlainPath(q') && PlainPath(p');
        DottedStarts(q', p');
        assert Dotted(q) + "." == q[0] + "." + (Dotted(q') + ".");
        if Dotted(q) + "." <= Dotted(p) {
          FirstName(q[0], Dotted(q') + ".", p[0], Dotted(p'));
          assert q == [q[0]] + q' && p == [p[0]] + p';
        }
        if q < p {
          assert q' == p'[..|q'|];
          assert Dotted(p) == q[0] + "." + Dotted(p');
          assert Dotted(p')[..|Dotted(q') + "."|] == Dotted(q') + ".";
        }
      }
    }
  }

  lemma OneNameOnly(q: Path, n: Name)
    requires q != [] && Plain(n)
    ensures !(Dotted(q) + "." <= n) && !(q < [n])
  {
    var d := Dotted(q) + ".";
    assert d[|d| - 1] == '.';
    SamePlace(d, n, |d| - 1);
  }

  lemma DotsBetween(p: Path)
    requires PlainPath(p) && p != []
    ensures '.' in Dotted(p) <==> |p| > 1
  {
    assert Plain(p[0]);
    if |p| > 1 {
      assert Dotted(p)[|p[0]|] == '.';
    }
  }

  lemma {:induction false} DottedInjective(q: Path, p: Path)
    requires PlainPath(q) && PlainPath(p) && Dotted(q) == Dotted(p)
    ensures q == p
  {
    if q == [] {
      if p != [] {
        DottedNotEmpty(p);
      }
    } else if p == [] {
      DottedNotEmpty(q);
    } else {
      assert Plain(q[0]) && Plain(p[0]);
      DotsBetween(q);
      DotsBetween(p);
      if |q| > 1 {
        FirstName(q[0], Dotted(q[1..]), p[0], Dotted(p[1..]));
        FirstName(p[0], Dotted(p[1..]), q[0], Dotted(q[1..]));
        DottedInjective(q[1..], p[1..]);
        assert q == [q[0]] + q[1..] && p == [p[0]] + p[1..];
      }
    }
  }

  /** The autouse fixtures that apply, by the source's own test on the dotted scopes: the module's
      (empty scope), those of the test's own class, and those of every class around it. */
  lemma AutouseApplies(f: File, from: Path, q: Path)
    requires PlainPath(from) && PlainPath(q)
    ensures var scope, own := Dotted(ScopeOf(from)), Dotted(ScopeOf(q));
            q in ApplicableAutouse(f, from)
            <==> q in f.autouse && (own == "" || scope == own || own + "." <= scope)
  {
    var scope, own := ScopeOf(from), ScopeOf(q);
    assert PlainPath(scope) && PlainPath(own);
    if own != [] {
      DottedNotEmpty(own);
      DottedStarts(own, scope);
      assert own <= scope <==> own == scope || own < scope;
      if Dotted(scope) == Dotted(own) {
        DottedInjective(scope, own);
      }
    }
  }

  // ---- reachability ------------------------------------------------------------------

  /** `to` is one call, self-call or fixture parameter away from the definition `from`. */
  ghost predicate Edge(f: File, from: Path, to: Path) {
    && from in f.defs
    && var d := f.defs[from];
    || (to in d.moduleCalls && to in f.defs)
    || (exists n :: n in d.selfCalls && to == ScopeOf(from) + [n] && to in f.defs)
    || (exists n :: n in d.params && Resolve(f, n, ScopeOf(from)) == Some(to) && to != from)
  }

  /** One edge, by scopes: a module-level call; a `self` call to a method of the same scope, so
      that equal names in different classes never meet; or the fixture that a parameter names,
      of the innermost enclosing scope that has one. */
  lemma EdgeIff(f: File, from: Path, to: Path)
    requires from in f.defs && to != []
    ensures var d, home, name := f.defs[from], ScopeOf(from), to[|to| - 1];
            Edge(f, from, to)
            <==> || (to in d.moduleCalls && to in f.defs)
                 || (ScopeOf(to) == home && name in d.selfCalls && to in f.defs)
                 || (&& name in d.params && to != from && to in f.fixtures && ScopeOf(to) <= home
                     && forall s: Path :: s <= home && s + [name] in f.fixtures ==> |s| < |to|)
  {
    var d, home, name := f.defs[from], ScopeOf(from), to[|to| - 1];
    assert to == ScopeOf(to) + [name];
    forall n
      ensures Resolve(f, n, home) == Some(to)
              <==> n == name && Resolve(f, name, home) == Some(to)
    {
      ResolveIsInnermost(f, n, home);
    }
    forall n
      ensures to == home + [n] <==> n == name && ScopeOf(to) == home
    {
      if to == home + [n] {
        assert to[|to| - 1] == n;
      }
    }
    ResolvesTo(f, home, to);
    hide Resolve;
  }

  /** A name resolves to `to` when `to` is the innermost enclosing scope's fixture of that name. */
  lemma ResolvesTo(f: File, home: Path, to: Path)
    requires to != []
    ensures var name := to[|to| - 1];
            Resolve(f, name, home) == Some(to)
            <==> (&& to in f.fixtures && ScopeOf(to) <= home
                  && forall s: Path :: s <= home && s + [name] in f.fixtures ==> |s| < |to|)
  {
    var name := to[|to| - 1];
    assert to == ScopeOf(to) + [name];
    ResolveIsInnermost(f, name, home);
    var r := Resolve(f, name, home);
    if && to in f.fixtures && ScopeOf(to) <= home
       && forall s: Path :: s <= home && s + [name] in f.fixtures ==> |s| < |to| {
      var inner := ScopeOf(r.value);
      assert r.value == inner + [name];
      assert |inner| < |to| && inner == ScopeOf(to);
    }
  }

  /** A chain of edges from a start to a definition. */
  ghost predicate Chain(f: File, starts: set<Path>, c: seq<Path>) {
    && c != [] && c[0] in starts
    && (forall i :: 0 <= i < |c| ==> c[i] in f.defs)
    && (forall i :: 0 <= i < |c| - 1 ==> Edge(f, c[i], c[i + 1]))
  }

  ghost predicate Reached(f: File, starts: set<Path>, q: Path) {
    exists c :: Chain(f, starts, c) && c[|c| - 1] == q
  }

  lemma ReachedStart(f: File, starts: set<Path>, q: Path)
    requires q in starts && q in f.defs
    ensures Reached(f, starts, q)
  {
    assert Chain(f, starts, [q]);
  }

  lemma ReachedNext(f: File, starts: set<Path>, q: Path, r: Path)
    requires Reached(f, starts, q) && Edge(f, q, r) && r in f.defs
    ensures Reached(f, starts, r)
  {
    var c :| Chain(f, starts, c) && c[|c| - 1] == q;
    var d := c + [r];
    assert forall i :: 0 <= i < |d| - 1 ==> Edge(f, d[i], d[i + 1]) by {
      forall i | 0 <= i < |d| - 1
        ensures Edge(f, d[i], d[i + 1])
      {
        if i < |c| - 1 {
          assert Edge(f, c[i], c[i + 1]);
        }
      }
    }
    assert Chain(f, starts, d);
  }

  /** A set with the starts and closed under edges holds everything reached. */
  lemma {:induction false} ClosedHoldsReached(f: File, starts: set<Path>, s: set<Path>, c: seq<Path>, i: nat)
    requires Chain(f, starts, c) && i < |c|
    requires forall q :: q in starts && q in f.defs ==> q in s
    requires forall q, r :: q in s && Edge(f, q, r) && r in f.defs ==> r in s
    ensures c[i] in s
  {
    if i > 0 {
      ClosedHoldsReached(f, starts, s, c, i - 1);
      assert Edge(f, c[i - 1], c[(i - 1) + 1]);
    }
  }

  /** The effects of everything reachable: no mention of any order. */
  ghost predicate Reaches(f: File, starts: set<Path>, e: Effect) {
    exists q :: Reached(f, starts, q) && q in f.defs && e in f.defs[q].effects
  }

  function Starts(f: File, root: Path): set<Path> {
    {root} + ApplicableAutouse(f, root)
  }

  /** What the effects of a test are: those of the last definition of any chain of edges from the
      test itself or from an autouse fixture of an enclosing scope. */
  lemma ReachesFrom(f: File, root: Path, e: Effect)
    ensures Reaches(f, Starts(f, root), e)
            <==> exists c: seq<Path> ::
                   && c != [] && (c[0] == root || (c[0] in f.autouse && ScopeOf(c[0]) <= ScopeOf(root)))
                   && (forall i :: 0 <= i < |c| ==> c[i] in f.defs)
                   && (forall i :: 0 <= i < |c| - 1 ==> Edge(f, c[i], c[i + 1]))
                   && e in f.defs[c[|c| - 1]].effects
  {
    hide Edge;
    if Reaches(f, Starts(f, root), e) {
      var q :| Reached(f, Starts(f, root), q) && q in f.defs && e in f.defs[q].effects;
      var c :| Chain(f, Starts(f, root), c) && c[|c| - 1] == q;
      assert c[0] == root || c[0] in ApplicableAutouse(f, root);
    }
    if c: seq<Path> :|
       && c != [] && (c[0] == root || (c[0] in f.autouse && ScopeOf(c[0]) <= ScopeOf(root)))
       && (forall i :: 0 <= i < |c| ==> c[i] in f.defs)
       && (forall i :: 0 <= i < |c| - 1 ==> Edge(f, c[i], c[i + 1]))
       && e in f.defs[c[|c| - 1]].effects {
      assert Chain(f, Starts(f, root), c);
    }
  }

  // ---- the worklist ------------------------------------------------------------------

  /** Fixtures are definitions. */
  predicate WellFormed(f: File) {
    f.fixtures <= f.defs.Keys && f.autouse <= f.fixtures
  }

  /** The next definitions of `q`, in the order the source queues them. */
  method Neighbours(f: File, q: Path) returns (out: seq<Path>)
    requires WellFormed(f) && q in f.defs
    ensures forall r :: r in out <==> Edge(f, q, r)
  {
    var d := f.defs[q];
    out := [];
    for i := 0 to |d.moduleCalls|
      invariant forall r :: r in out <==> r in d.moduleCalls[..i] && r in f.defs
    {
      if d.moduleCalls[i] in f.defs {
        out := out + [d.moduleCalls[i]];
      }
    }
    assert d.moduleCalls[..|d.moduleCalls|] == d.moduleCalls;
    var calls := LocalCalls(f, q, d);
    var found := ParameterFixtures(f, q, d);
    out := out + calls + found;
  }

  method LocalCalls(f: File, q: Path, d: Def) returns (out: seq<Path>)
    ensures forall r :: r in out <==> exists n :: n in d.selfCalls && r == ScopeOf(q) + [n] && r in f.defs
  {
    out := [];
    for i := 0 to |d.selfCalls|
      invariant forall r :: r in out <==> exists n :: n in d.selfCalls[..i] && r == ScopeOf(q) + [n] && r in f.defs
    {
      var n := d.selfCalls[i];
      assert d.selfCalls[..i + 1] == d.selfCalls[..i] + [n];
      var local := ScopeOf(q) + [n];
      if local in f.defs {
        out := out + [local];
      }
    }
    assert d.selfCalls[..|d.selfCalls|] == d.selfCalls;
  }

  method ParameterFixtures(f: File, q: Path, d: Def) returns (out: seq<Path>)
    ensures forall r :: r in out <==> exists n :: n in d.params && Resolve(f, n, ScopeOf(q)) == Some(r) && r != q
  {
    out := [];
    for i := 0 to |d.params|
      invariant forall r :: r in out <==>
                  exists n :: n in d.params[..i] && Resolve(f, n, ScopeOf(q)) == Some(r) && r != q
    {
      var n := d.params[i];
      assert d.params[..i + 1] == d.params[..i] + [n];
      var found := ResolveFixture(f, n, q);
      if found.Some? && found.value != q {
        out := out + [found.value];
      }
    }
    assert d.params[..|d.params|] == d.params;
  }

  /** Everything seen or queued is reached; what is reached in one step from a start or from
      something seen is seen or queued. */
  ghost predicate Frontier(f: File, starts: set<Path>, seen: set<Path>, todo: seq<Path>) {
    && seen <= f.defs.Keys
    && (forall q :: q in todo && q in f.defs ==> Reached(f, starts, q))
    && (forall q :: q in seen ==> Reached(f, starts, q))
    && (forall q :: q in starts && q in f.defs ==> q in seen || q in todo)
    && (forall q, r :: q in seen && Edge(f, q, r) && r in f.defs ==> r in seen || r in todo)
  }

  lemma FirstFrontier(f: File, starts: set<Path>, todo: seq<Path>)
    requires forall q :: q in todo <==> q in starts
    ensures Frontier(f, starts, {}, todo)
  {
    hide Reached;
    forall q | q in todo && q in f.defs
      ensures Reached(f, starts, q)
    {
      ReachedStart(f, starts, q);
    }
  }

  lemma SkipSeen(f: File, starts: set<Path>, seen: set<Path>, todo: seq<Path>, q: Path)
    requires Frontier(f, starts, seen, todo + [q]) && (q in seen || q !in f.defs)
    ensures Frontier(f, starts, seen, todo)
  {
    hide Reached;
    hide Edge;
    assert forall r :: r in todo + [q] <==> r in todo || r == q;
  }

  lemma Visit(f: File, starts: set<Path>, seen: set<Path>, todo: seq<Path>, q: Path, next: seq<Path>)
    requires Frontier(f, starts, seen, todo + [q]) && q in f.defs
    requires forall r :: r in next <==> Edge(f, q, r)
    ensures Frontier(f, starts, seen + {q}, todo + next)
  {
    hide Reached;
    hide Edge;
    assert forall r :: r in todo + [q] <==> r in todo || r == q;
    assert Reached(f, starts, q);
    forall r | r in next && r in f.defs
      ensures Reached(f, starts, r)
    {
      ReachedNext(f, starts, q, r);
    }
    assert forall r :: r in todo + next <==> r in todo || r in next;
  }

  /** With nothing queued, exactly the reached definitions were seen. */
  lemma FrontierDone(f: File, starts: set<Path>, seen: set<Path>)
    requires Frontier(f, starts, seen, [])
    ensures forall q :: q in seen <==> Reached(f, starts, q)
  {
    forall q | Reached(f, starts, q)
      ensures q in seen
    {
      var c :| Chain(f, starts, c) && c[|c| - 1] == q;
      ClosedHoldsReached(f, starts, seen, c, |c| - 1);
    }
  }

  /** `closure`: `autouse` lists the applicable autouse fixtures in whatever order the set
      yields them. The result is exactly the effects of everything reachable, so it does not
      depend on that order or on the order in which the worklist is emptied. */
  method Closure(f: File, root: Path, autouse: seq<Path>) returns (effects: set<Effect>)
    requires WellFormed(f)
    requires forall q :: q in autouse <==> q in ApplicableAutouse(f, root)
    ensures forall e :: e in effects <==> Reaches(f, Starts(f, root), e)
  {
    hide Reached;
    hide Edge;
    hide Frontier;
    ghost var starts := Starts(f, root);
    effects := {};
    var seen: set<Path> := {};
    var todo := [root] + autouse;
    FirstFrontier(f, starts, todo);
    while todo != []
      invariant Frontier(f, starts, seen, todo)
      invariant forall e :: e in effects <==> exists q :: q in seen && q in f.defs && e in f.defs[q].effects
      decreases |f.defs.Keys - seen|, |todo|
    {
      var q := todo[|todo| - 1];
      assert todo == todo[..|todo| - 1] + [q];
      todo := todo[..|todo| - 1];
      if q in seen || q !in f.defs {
        SkipSeen(f, starts, seen, todo, q);
        continue;
      }
      assert q in f.defs.Keys - seen && q !in f.defs.Keys - (seen + {q});
      SubsetSize(f.defs.Keys - (seen + {q}), f.defs.Keys - seen);
      var next := Neighbours(f, q);
      Visit(f, starts, seen, todo, q, next);
      effects := effects + f.defs[q].effects;
      seen := seen + {q};
      todo := todo + next;
    }
    FrontierDone(f, starts, seen);
  }

  lemma {:induction false} SubsetSize<T>(a: set<T>, b: set<T>)
    requires a < b
    ensures |a| < |b|
  {
    var x :| x in b && x !in a;
    SubsetAtMost(a, b - {x});
  }

  lemma {:induction false} SubsetAtMost<T>(a: set<T>, b: set<T>)
    requires a <= b
    ensures |a| <= |b|
    decreases |a|
  {
    if a != {} {
      var x :| x in a;
      SubsetAtMost(a - {x}, b - {x});
    }
  }
}
