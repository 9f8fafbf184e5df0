/**
 * Day 23 (LAN Party): a network given as a list of links between named
 * computers; part 1 counts the triangles with a computer whose name starts
 * with 't', part 2 names the computers of a largest clique.
 */
module Day23 {
  import opened Wrappers
  import opened PyText

  type Name = string
  type Link = (Name, Name)
  type Triad = (Name, Name, Name)

  // ---------------------------------------------------------------------------
  // The network the links describe
  // ---------------------------------------------------------------------------

  /** Every computer named in the links. */
  function Names(links: seq<Link>): set<Name>
    decreases |links|
  {
    if links == [] then {}
    else Names(links[..|links| - 1]) + {links[|links| - 1].0, links[|links| - 1].1}
  }

  /** a and b are joined by some link, listed either way round. */
  predicate Linked(links: seq<Link>, a: Name, b: Name)
    decreases |links|
  {
    links != [] &&
    (var (c1, c2) := links[|links| - 1];
     (c1 == a && c2 == b) || (c1 == b && c2 == a) || Linked(links[..|links| - 1], a, b))
  }

  lemma {:induction false} LinkedSymmetric(links: seq<Link>, a: Name, b: Name)
    ensures Linked(links, a, b) <==> Linked(links, b, a)
    decreases |links|
  {
    if links != [] {
      LinkedSymmetric(links[..|links| - 1], a, b);
    }
  }

  lemma {:induction false} LinkedNamed(links: seq<Link>, a: Name, b: Name)
    requires Linked(links, a, b)
    ensures a in Names(links) && b in Names(links)
    decreases |links|
  {
    var (c1, c2) := links[|links| - 1];
    if !((c1 == a && c2 == b) || (c1 == b && c2 == a)) {
      LinkedNamed(links[..|links| - 1], a, b);
    }
  }

  /** No link joins a computer to itself. */
  predicate NoSelfLinks(links: seq<Link>) {
    forall k :: 0 <= k < |links| ==> links[k].0 != links[k].1
  }

  lemma {:induction false} NotLinkedToSelf(links: seq<Link>, a: Name)
    requires NoSelfLinks(links)
    ensures !Linked(links, a, a)
    decreases |links|
  {
    if links != [] {
      NotLinkedToSelf(links[..|links| - 1], a);
    }
  }

  // ---------------------------------------------------------------------------
  // create_adjacency_list
  // ---------------------------------------------------------------------------

  predicate Adjacent(adj: map<Name, set<Name>>, a: Name, b: Name) {
    a in adj && b in adj[a]
  }

  /** adj lists exactly the computers of the links and, for each, exactly its neighbours. */
  ghost predicate AdjacencyOf(links: seq<Link>, adj: map<Name, set<Name>>) {
    adj.Keys == Names(links) && forall a, b :: Adjacent(adj, a, b) <==> Linked(links, a, b)
  }

  /** defaultdict(set) lookup: a missing key reads as the empty set. */
  function Get(adj: map<Name, set<Name>>, a: Name): set<Name> {
    if a in adj then adj[a] else {}
  }

  /** Both ends of every link are recorded as each other's neighbours, and nothing else. */
  method AdjacencyList(links: seq<Link>) returns (adj: map<Name, set<Name>>)
    ensures AdjacencyOf(links, adj)
  {
    adj := map[];
    for i := 0 to |links|
      invariant AdjacencyOf(links[..i], adj)
    {
      var (c1, c2) := links[i];
      assert links[..i + 1][..i] == links[..i] && links[..i + 1][i] == (c1, c2);
      adj := adj[c1 := Get(adj, c1) + {c2}];
      adj := adj[c2 := Get(adj, c2) + {c1}];
    }
    assert links[..|links|] == links;
  }

  ghost predicate Symmetric(adj: map<Name, set<Name>>) {
    forall a, b :: Adjacent(adj, a, b) ==> Adjacent(adj, b, a)
  }

  ghost predicate Irreflexive(adj: map<Name, set<Name>>) {
    forall a :: !Adjacent(adj, a, a)
  }

  /** The adjacency list is symmetric, and irreflexive when no link is a loop. */
  lemma AdjacencyShape(links: seq<Link>, adj: map<Name, set<Name>>)
    requires AdjacencyOf(links, adj)
    ensures Symmetric(adj)
    ensures NoSelfLinks(links) ==> Irreflexive(adj)
  {
    forall a, b | Adjacent(adj, a, b)
      ensures Adjacent(adj, b, a)
    {
      LinkedSymmetric(links, a, b);
    }
    if NoSelfLinks(links) {
      forall a
        ensures !Adjacent(adj, a, a)
      {
        NotLinkedToSelf(links, a);
      }
    }
  }

  // ---------------------------------------------------------------------------
  // find_triads
  // ---------------------------------------------------------------------------

  /** The three computers are pairwise joined. */
  predicate Triangle(adj: map<Name, set<Name>>, t: Triad) {
    Adjacent(adj, t.0, t.1) && Adjacent(adj, t.0, t.2) && Adjacent(adj, t.1, t.2)
  }

  predicate TriangleOf(links: seq<Link>, a: Name, b: Name, c: Name) {
    Linked(links, a, b) && Linked(links, a, c) && Linked(links, b, c)
  }

  /** u is t in some order. */
  predicate PermOf(t: Triad, u: Triad) {
    u == (t.0, t.1, t.2) || u == (t.0, t.2, t.1) || u == (t.1, t.0, t.2) ||
    u == (t.1, t.2, t.0) || u == (t.2, t.0, t.1) || u == (t.2, t.1, t.0)
  }

  /** any(p in triads for p in permutations(t)). */
  predicate Covered(triads: set<Triad>, t: Triad) {
    (t.0, t.1, t.2) in triads || (t.0, t.2, t.1) in triads || (t.1, t.0, t.2) in triads ||
    (t.1, t.2, t.0) in triads || (t.2, t.0, t.1) in triads || (t.2, t.1, t.0) in triads
  }

  /** Every recorded triad is a triangle, and no two are orderings of one another. */
  predicate TriadsOk(adj: map<Name, set<Name>>, triads: set<Triad>) {
    (forall t :: t in triads ==> Triangle(adj, t)) &&
    forall t, u :: t in triads && u in triads && PermOf(t, u) ==> t == u
  }

  /** Recording a triangle with no ordering recorded yet keeps the triads irredundant. */
  lemma AddTriad(adj: map<Name, set<Name>>, triads: set<Triad>, t: Triad)
    requires TriadsOk(adj, triads) && Triangle(adj, t) && !Covered(triads, t)
    ensures TriadsOk(adj, triads + {t})
  {
    forall u | u in triads
      ensures !PermOf(t, u) && !PermOf(u, t)
    {
    }
  }

  /** The innermost loop, over the common neighbours c3 of c1 and c2. */
  method AddTriads(adj: map<Name, set<Name>>, c1: Name, c2: Name, common: set<Name>,
                   triads: set<Triad>)
    returns (triads': set<Triad>)
    requires TriadsOk(adj, triads) && Adjacent(adj, c1, c2)
    requires forall c :: c in common ==> Adjacent(adj, c1, c) && Adjacent(adj, c2, c)
    ensures TriadsOk(adj, triads') && triads <= triads'
    ensures forall c :: c in common ==> Covered(triads', (c1, c2, c))
  {
    triads' := triads;
    var todo := common;
    while todo != {}
      invariant todo <= common
      invariant TriadsOk(adj, triads') && triads <= triads'
      invariant forall c :: c in common - todo ==> Covered(triads', (c1, c2, c))
      decreases todo
    {
      var c3 :| c3 in todo;
      if !Covered(triads', (c1, c2, c3)) {
        AddTriad(adj, triads', (c1, c2, c3));
        triads' := triads' + {(c1, c2, c3)};
      }
      todo := todo - {c3};
    }
  }

  /** The middle loop, over the neighbours c2 of c1. */
  method TriadsAt(adj: map<Name, set<Name>>, c1: Name, triads: set<Triad>)
    returns (triads': set<Triad>)
    requires Symmetric(adj) && c1 in adj && TriadsOk(adj, triads)
    ensures TriadsOk(adj, triads') && triads <= triads'
    ensures forall t :: Triangle(adj, t) && t.0 == c1 ==> Covered(triads', t)
  {
    triads' := triads;
    var linked := adj[c1];
    var todo := linked;
    while todo != {}
      invariant todo <= linked
      invariant TriadsOk(adj, triads') && triads <= triads'
      invariant forall t :: Triangle(adj, t) && t.0 == c1 && t.1 !in todo ==> Covered(triads', t)
      decreases todo
    {
      var c2 :| c2 in todo;
      assert Adjacent(adj, c1, c2) && Adjacent(adj, c2, c1);
      var before := triads';
      triads' := AddTriads(adj, c1, c2, linked * adj[c2], triads');
      forall t | Triangle(adj, t) && t.0 == c1 && t.1 !in todo - {c2}
        ensures Covered(triads', t)
      {
        if t.1 == c2 {
          assert t == (c1, c2, t.2) && t.2 in linked * adj[c2];
        } else {
          assert Covered(before, t);
        }
      }
      todo := todo - {c2};
    }
  }

  /**
   * Every triad found is a triangle of the links, every triangle is found
   * in some ordering, and no triangle is found in two orderings.
   */
  method FindTriads(links: seq<Link>) returns (triads: set<Triad>)
    ensures forall t :: t in triads ==> TriangleOf(links, t.0, t.1, t.2)
    ensures forall a, b, c :: TriangleOf(links, a, b, c) ==> Covered(triads, (a, b, c))
    ensures forall t, u :: t in triads && u in triads && PermOf(t, u) ==> t == u
  {
    var adj := AdjacencyList(links);
    AdjacencyShape(links, adj);
    triads := {};
    var todo := adj.Keys;
    while todo != {}
      invariant todo <= adj.Keys
      invariant TriadsOk(adj, triads)
      invariant forall t :: Triangle(adj, t) && t.0 !in todo ==> Covered(triads, t)
      decreases todo
    {
      var c1 :| c1 in todo;
      var before := triads;
      triads := TriadsAt(adj, c1, triads);
      forall t | Triangle(adj, t) && t.0 !in todo - {c1}
        ensures Covered(triads, t)
      {
        if t.0 != c1 {
          assert Covered(before, t);
        }
      }
      todo := todo - {c1};
    }
    forall a, b, c | TriangleOf(links, a, b, c)
      ensures Covered(triads, (a, b, c))
    {
      LinkedNamed(links, a, b);
      assert Triangle(adj, (a, b, c));
    }
  }

  // ---------------------------------------------------------------------------
  // part1
  // ---------------------------------------------------------------------------

  /** name.startswith('t'). */
  predicate StartsWithT(name: Name) {
    |name| > 0 && name[0] == 't'
  }

  /** The triangles with a computer whose name starts with 't', each taken as an unordered triple. */
  ghost function TTriangles(links: seq<Link>): set<multiset<Name>> {
    set a, b, c | a in Names(links) && b in Names(links) && c in Names(links) &&
                  TriangleOf(links, a, b, c) && (StartsWithT(a) || StartsWithT(b) || StartsWithT(c))
      :: multiset{a, b, c}
  }

  function Members(t: Triad): multiset<Name> {
    multiset{t.0, t.1, t.2}
  }

  lemma PairPerm(a: Name, b: Name, c: Name, d: Name)
    requires multiset{a, b} == multiset{c, d}
    ensures (a == c && b == d) || (a == d && b == c)
  {
    assert multiset{a, b}[c] > 0;
    if c == a {
      assert multiset{a, b}[b] == multiset{c, d}[b];
    } else {
      assert multiset{a, b}[a] == multiset{c, d}[a];
    }
  }
  /** A member of one side is a member of the other. */
  lemma FirstIn(a: Name, b: Name, c: Name, d: Name, e: Name, f: Name)
    requires multiset{a, b, c} == multiset{d, e, f}
    ensures d == a || d == b || d == c
  {
    assert multiset{d, e, f}[d] > 0;
  }
  /** A common member cancels. */
  lemma CancelFirst(x: Name, a: Name, b: Name, c: Name, d: Name)
    requires multiset{x, a, b} == multiset{x, c, d}
    ensures multiset{a, b} == multiset{c, d}
  {
    assert multiset{a, b} == multiset{x, a, b} - multiset{x};
    assert multiset{c, d} == multiset{x, c, d} - multiset{x};
  }
  lemma Rotations(a: Name, b: Name, c: Name)
    ensures multiset{b, a, c} == multiset{a, b, c} && multiset{c, a, b} == multiset{a, b, c}
  {
  }
  /** Two triples with the same members are orderings of one another. */
  lemma SameMembers(a: Name, b: Name, c: Name, d: Name, e: Name, f: Name)
    requires multiset{a, b, c} == multiset{d, e, f}
    ensures PermOf((a, b, c), (d, e, f))
  {
    FirstIn(a, b, c, d, e, f);
    Rotations(a, b, c);
    if d == a {
      CancelFirst(a, b, c, e, f);
      PairPerm(b, c, e, f);
    } else if d == b {
      CancelFirst(b, a, c, e, f);
      PairPerm(a, c, e, f);
    } else {
      CancelFirst(c, a, b, e, f);
      PairPerm(a, b, e, f);
    }
  }
  /** Two triads with the same members are orderings of one another. */
  lemma MembersPerm(t: Triad, u: Triad)
    requires Members(t) == Members(u)
    ensures PermOf(t, u)
  {
    SameMembers(t.0, t.1, t.2, u.0, u.1, u.2);
  }

  /** A triple in any order has the same members. */
  lemma Orders(a: Name, b: Name, c: Name, u: Triad)
    requires PermOf((a, b, c), u)
    ensures Members(u) == multiset{a, b, c}
  {
    Rotations(a, b, c);
    Rotations(a, c, b);
  }

  /** The values f takes on s. */
  function Image<A, B>(s: set<A>, f: A -> B): set<B> {
    set x | x in s :: f(x)
  }

  /** A map that is one-to-one on s has an image as large as s. */
  lemma {:induction false} ImageSize<A, B>(s: set<A>, f: A -> B)
    requires forall x, y :: x in s && y in s && f(x) == f(y) ==> x == y
    ensures |Image(s, f)| == |s|
    decreases |s|
  {
    if s != {} {
      var x :| x in s;
      var s' := s - {x};
      ImageSize(s', f);
      assert Image(s, f) == Image(s', f) + {f(x)};
      assert f(x) !in Image(s', f);
    }
  }

  /** The triads with a member among the targets. */
  function Hit(triads: set<Triad>, targets: set<Name>): set<Triad> {
    set t | t in triads && (t.0 in targets || t.1 in targets || t.2 in targets)
  }

  /** The names of the links that start with 't'. */
  function TNames(links: seq<Link>): set<Name> {
    set n | n in Names(links) && StartsWithT(n)
  }

  /** The members of a triad with a 't' member form a 't' triangle. */
  lemma HitIsTriangle(links: seq<Link>, triads: set<Triad>, t: Triad)
    requires forall t :: t in triads ==> TriangleOf(links, t.0, t.1, t.2)
    requires t in Hit(triads, TNames(links))
    ensures Members(t) in TTriangles(links)
  {
    LinkedNamed(links, t.0, t.1);
    LinkedNamed(links, t.0, t.2);
  }

  /** A 't' triangle is the members of some triad with a 't' member. */
  lemma TriangleIsHit(links: seq<Link>, triads: set<Triad>, a: Name, b: Name, c: Name)
    requires Covered(triads, (a, b, c))
    requires a in Names(links) && b in Names(links) && c in Names(links)
    requires StartsWithT(a) || StartsWithT(b) || StartsWithT(c)
    ensures multiset{a, b, c} in Image(Hit(triads, TNames(links)), Members)
  {
    var t :| t in triads && PermOf((a, b, c), t);
    Orders(a, b, c, t);
    var targets := TNames(links);
    assert a in targets || b in targets || c in targets;
    PermHits(a, b, c, t, targets);
    var hit := Hit(triads, targets);
    assert t in hit;
    assert Members(t) == multiset{a, b, c};
  }

  /** A triple and any ordering of it have a member among the targets alike. */
  lemma PermHits(a: Name, b: Name, c: Name, t: Triad, targets: set<Name>)
    requires PermOf((a, b, c), t) && (a in targets || b in targets || c in targets)
    ensures t.0 in targets || t.1 in targets || t.2 in targets
  {
  }

  /** No two triads with a 't' member have the same members. */
  lemma HitApart(triads: set<Triad>, targets: set<Name>)
    requires forall t, u :: t in triads && u in triads && PermOf(t, u) ==> t == u
    ensures forall t, u ::
              t in Hit(triads, targets) && u in Hit(triads, targets) && Members(t) == Members(u) ==> t == u
  {
    forall t, u | t in Hit(triads, targets) && u in Hit(triads, targets) && Members(t) == Members(u)
      ensures t == u
    {
      MembersPerm(t, u);
    }
  }

  lemma HitWithin(links: seq<Link>, triads: set<Triad>)
    requires forall t :: t in triads ==> TriangleOf(links, t.0, t.1, t.2)
    ensures Image(Hit(triads, TNames(links)), Members) <= TTriangles(links)
  {
    var hit := Hit(triads, TNames(links));
    forall m | m in Image(hit, Members)
      ensures m in TTriangles(links)
    {
      var t :| t in hit && m == Members(t);
      HitIsTriangle(links, triads, t);
    }
  }

  lemma TrianglesWithin(links: seq<Link>, triads: set<Triad>)
    requires forall a, b, c :: TriangleOf(links, a, b, c) ==> Covered(triads, (a, b, c))
    ensures TTriangles(links) <= Image(Hit(triads, TNames(links)), Members)
  {
    forall m | m in TTriangles(links)
      ensures m in Image(Hit(triads, TNames(links)), Members)
    {
      var a, b, c :| a in Names(links) && b in Names(links) && c in Names(links) &&
                     TriangleOf(links, a, b, c) && (StartsWithT(a) || StartsWithT(b) || StartsWithT(c)) &&
                     m == multiset{a, b, c};
      TriangleIsHit(links, triads, a, b, c);
    }
  }

  /** One triad per unordered triangle: the triads with a 't' member are as many as the 't' triangles. */
  lemma CountTriangles(links: seq<Link>, triads: set<Triad>)
    requires forall t :: t in triads ==> TriangleOf(links, t.0, t.1, t.2)
    requires forall a, b, c :: TriangleOf(links, a, b, c) ==> Covered(triads, (a, b, c))
    requires forall t, u :: t in triads && u in triads && PermOf(t, u) ==> t == u
    ensures |Hit(triads, TNames(links))| == |TTriangles(links)|
  {
    HitApart(triads, TNames(links));
    ImageSize(Hit(triads, TNames(links)), Members);
    HitWithin(links, triads);
    TrianglesWithin(links, triads);
    assert Image(Hit(triads, TNames(links)), Members) == TTriangles(links);
  }

  /** The number of triangles (unordered) with a computer whose name starts with 't'. */
  method Part1(links: seq<Link>) returns (r: nat)
    ensures r == |TTriangles(links)|
  {
    var triads := FindTriads(links);
    var targets := {};
    for i := 0 to |links|
      invariant targets == TNames(links[..i])
    {
      var (c1, c2) := links[i];
      assert links[..i + 1][..i] == links[..i] && links[..i + 1][i] == (c1, c2);
      if StartsWithT(c1) {
        targets := targets + {c1};
      }
      if StartsWithT(c2) {
        targets := targets + {c2};
      }
    }
    assert links[..|links|] == links;
    r := |Hit(triads, targets)|;
    CountTriangles(links, triads);
  }

  // ---------------------------------------------------------------------------
  // find_maximal_cliques / bron_kerbosch
  // ---------------------------------------------------------------------------

  /** Every two members are neighbours. */
  predicate Clique(adj: map<Name, set<Name>>, c: set<Name>) {
    c <= adj.Keys && forall a, b :: a in c && b in c && a != b ==> Adjacent(adj, a, b)
  }

  /** w is outside c and a neighbour of every member of c. */
  predicate Common(adj: map<Name, set<Name>>, c: set<Name>, w: Name) {
    w in adj && w !in c && forall a :: a in c ==> Adjacent(adj, a, w)
  }

  /** A clique that no further computer can join. */
  ghost predicate Maximal(adj: map<Name, set<Name>>, c: set<Name>) {
    Clique(adj, c) && forall w :: !Common(adj, c, w)
  }

  /**
   * The cliques in found are exactly the maximal cliques that extend r by
   * members of p of which at least one was already taken (is in h).
   */
  ghost predicate Reports(adj: map<Name, set<Name>>, r: set<Name>, p: set<Name>, h: set<Name>,
                    found: seq<set<Name>>) {
    forall c :: c in found <==> Maximal(adj, c) && r <= c && c - r <= p && c * h != {}
  }

  /** What bron_kerbosch asks of its arguments. */
  ghost predicate Call(adj: map<Name, set<Name>>, r: set<Name>, p: set<Name>, x: set<Name>) {
    Clique(adj, r) && p * x == {} && forall w :: w in p + x <==> Common(adj, r, w)
  }

  /** With nothing left to add or exclude, r is maximal and the only answer. */
  lemma BaseCase(adj: map<Name, set<Name>>, r: set<Name>, p: set<Name>)
    requires Call(adj, r, p, {}) && p == {}
    ensures forall c :: c in [r] <==> Maximal(adj, c) && r <= c && c - r <= p
  {
    assert forall w :: !Common(adj, r, w);
    forall c | Maximal(adj, c) && r <= c && c - r <= p
      ensures c == r
    {
      forall u | u in c
        ensures u in r
      {
        assert u !in c - r;
      }
    }
  }

  /** The recursive call for v is set up as bron_kerbosch requires. */
  lemma StepCall(adj: map<Name, set<Name>>, r: set<Name>, p0: set<Name>, x0: set<Name>,
                 p: set<Name>, x: set<Name>, v: Name)
    requires Symmetric(adj) && Irreflexive(adj) && Call(adj, r, p0, x0)
    requires p <= p0 && x == x0 + (p0 - p) && v in p && v in adj
    ensures Call(adj, r + {v}, p * adj[v], x * adj[v])
    ensures p * adj[v] < p0
  {
    assert Common(adj, r, v);
    assert !Adjacent(adj, v, v);
    forall w | w in p * adj[v] + x * adj[v]
      ensures Common(adj, r + {v}, w)
    {
      assert w in p0 + x0;
      assert Common(adj, r, w);
      assert Adjacent(adj, v, w);
    }
    forall w | Common(adj, r + {v}, w)
      ensures w in p * adj[v] + x * adj[v]
    {
      assert Common(adj, r, w);
      assert w in p0 + x0;
      assert Adjacent(adj, v, w);
    }
    forall a, b | a in r + {v} && b in r + {v} && a != b
      ensures Adjacent(adj, a, b)
    {
      if a == v {
        assert Adjacent(adj, b, v);
      }
    }
    assert v !in p * adj[v];
  }

  /** The cliques reported for v are those maximal ones that contain v and avoid what was taken before. */
  lemma StepMore(adj: map<Name, set<Name>>, r: set<Name>, p0: set<Name>, x0: set<Name>,
                 p: set<Name>, v: Name, more: seq<set<Name>>)
    requires Call(adj, r, p0, x0) && p <= p0 && v in p && v in adj
    requires forall c :: c in more <==> Maximal(adj, c) && r + {v} <= c && c - (r + {v}) <= p * adj[v]
    ensures forall c :: c in more <==>
              Maximal(adj, c) && r <= c && c - r <= p0 && v in c && c * (p0 - p) == {}
  {
    forall c | c in more
      ensures r <= c && c - r <= p0 && v in c && c * (p0 - p) == {}
    {
      forall u | u in c
        ensures (u in r && u !in p0) || u in p
      {
        if u in r {
          assert !Common(adj, r, u);
          assert u !in p0 + x0;
        } else if u != v {
          assert u in c - (r + {v});
        }
      }
    }
    forall c | Maximal(adj, c) && r <= c && c - r <= p0 && v in c && c * (p0 - p) == {}
      ensures c in more
    {
      forall w | w in c - (r + {v})
        ensures w in p * adj[v]
      {
        assert w !in c * (p0 - p);
        assert Adjacent(adj, v, w);
      }
    }
  }

  /** Adding the reports for v extends the taken set by v. */
  lemma StepUnion(adj: map<Name, set<Name>>, r: set<Name>, p0: set<Name>, p: set<Name>, v: Name,
                  found: seq<set<Name>>, more: seq<set<Name>>)
    requires p <= p0 && v in p && Reports(adj, r, p0, p0 - p, found)
    requires forall c :: c in more <==>
               Maximal(adj, c) && r <= c && c - r <= p0 && v in c && c * (p0 - p) == {}
    ensures Reports(adj, r, p0, p0 - (p - {v}), found + more)
  {
    var h := p0 - (p - {v});
    forall c
      ensures c in found + more <==> Maximal(adj, c) && r <= c && c - r <= p0 && c * h != {}
    {
      if v in c {
        assert v in c * h;
      }
      if c * h != {} && v !in c {
        var u :| u in c * h;
        assert u in c * (p0 - p);
      }
    }
  }

  /** The reports for v share no clique with the earlier ones. */
  lemma StepDistinct(adj: map<Name, set<Name>>, r: set<Name>, p0: set<Name>, p: set<Name>, v: Name,
                     found: seq<set<Name>>, more: seq<set<Name>>)
    requires Reports(adj, r, p0, p0 - p, found) && Distinct(found) && Distinct(more)
    requires forall c :: c in more ==> c * (p0 - p) == {}
    ensures Distinct(found + more)
  {
    DistinctAppend(found, more);
  }

  /** Moving v from p to x keeps x as X plus what has left P. */
  lemma TakeOne<T>(P: set<T>, X: set<T>, p: set<T>, x: set<T>, v: T)
    requires p <= P && x == X + (P - p) && v in p
    ensures p - {v} <= P && x + {v} == X + (P - (p - {v}))
  {
  }

  /** One turn of the loop: the reports for v join the earlier ones. */
  lemma Step(adj: map<Name, set<Name>>, r: set<Name>, p0: set<Name>, x0: set<Name>,
             p: set<Name>, v: Name, found: seq<set<Name>>, more: seq<set<Name>>)
    requires Call(adj, r, p0, x0) && p <= p0 && v in p && v in adj
    requires Reports(adj, r, p0, p0 - p, found) && Distinct(found) && Distinct(more)
    requires forall c :: c in more <==> Maximal(adj, c) && r + {v} <= c && c - (r + {v}) <= p * adj[v]
    ensures Reports(adj, r, p0, p0 - (p - {v}), found + more) && Distinct(found + more)
  {
    StepMore(adj, r, p0, x0, p, v, more);
    StepUnion(adj, r, p0, p, v, found, more);
    StepDistinct(adj, r, p0, p, v, found, more);
  }

  /** Once every member of p is taken, the reports are all the maximal extensions of r within p. */
  lemma EndReports(adj: map<Name, set<Name>>, r: set<Name>, p0: set<Name>, x0: set<Name>,
                   found: seq<set<Name>>)
    requires Call(adj, r, p0, x0) && p0 + x0 != {} && Reports(adj, r, p0, p0, found)
    ensures forall c :: c in found <==> Maximal(adj, c) && r <= c && c - r <= p0
  {
    var w :| w in p0 + x0;
    assert Common(adj, r, w);
    forall c | Maximal(adj, c) && r <= c && c - r <= p0
      ensures c * p0 != {}
    {
      assert !Common(adj, c, w);
      assert c != r;
      assert !(c <= r);
      var u :| u in c && u !in r;
      assert u in c * p0;
    }
  }

  /**
   * Appends to the cliques found so far every maximal clique that contains r,
   * takes its other members from p and none from x, each exactly once.
   */
  method BronKerbosch(adj: map<Name, set<Name>>, r: set<Name>, P: set<Name>, X: set<Name>,
                      cliques: seq<set<Name>>)
    returns (cliques': seq<set<Name>>)
    requires Symmetric(adj) && Irreflexive(adj) && Call(adj, r, P, X)
    ensures |cliques| <= |cliques'| && cliques'[..|cliques|] == cliques
    ensures forall c :: c in cliques'[|cliques|..] <==> Maximal(adj, c) && r <= c && c - r <= P
    ensures Distinct(cliques'[|cliques|..])
    decreases P
  {
    if |P| == 0 && |X| == 0 {
      BaseCase(adj, r, P);
      cliques' := cliques + [r];
      assert cliques'[|cliques|..] == [r];
      return;
    }
    // The loop runs over a copy of P while removing each v from P itself, so
    // the copy and P agree at every step; p plays both parts.
    var p, x := P, X;
    cliques' := cliques;
    ghost var found: seq<set<Name>> := [];
    while p != {}
      invariant p <= P && x == X + (P - p)
      invariant cliques' == cliques + found
      invariant Reports(adj, r, P, P - p, found)
      invariant Distinct(found)
      decreases p
    {
      var v :| v in p;
      assert Common(adj, r, v);
      StepCall(adj, r, P, X, p, x, v);
      var before := cliques';
      cliques' := BronKerbosch(adj, r + {v}, p * adj[v], x * adj[v], cliques');
      ghost var more := cliques'[|before|..];
      ExtendsBy(cliques', before);
      AppendAssoc(cliques, found, more);
      Step(adj, r, P, X, p, v, found, more);
      TakeOne(P, X, p, x, v);
      found := found + more;
      p := p - {v};
      x := x + {v};
    }
    assert cliques'[|cliques|..] == found;
    EndReports(adj, r, P, X, found);
  }

  /** The maximal cliques of the network, each exactly once. */
  method FindMaximalCliques(adj: map<Name, set<Name>>) returns (cliques: seq<set<Name>>)
    requires Symmetric(adj) && Irreflexive(adj)
    ensures forall c :: c in cliques <==> Maximal(adj, c)
    ensures Distinct(cliques)
  {
    cliques := BronKerbosch(adj, {}, adj.Keys, {}, []);
    assert cliques[0..] == cliques;
  }

  /** Every clique extends to a maximal one. */
  lemma {:induction false} ExtendToMaximal(adj: map<Name, set<Name>>, c: set<Name>)
    requires Symmetric(adj) && Clique(adj, c)
    ensures exists m :: Maximal(adj, m) && c <= m
    decreases |adj.Keys - c|
  {
    if !Maximal(adj, c) {
      var w :| Common(adj, c, w);
      assert Clique(adj, c + {w});
      assert adj.Keys - (c + {w}) < adj.Keys - c;
      ExtendToMaximal(adj, c + {w});
    }
  }

  // ---------------------------------------------------------------------------
  // part2
  // ---------------------------------------------------------------------------

  /** Python's string order: a proper prefix first, else by the first differing character. */
  predicate Less(a: Name, b: Name)
    decreases |a|
  {
    b != [] && (a == [] || a[0] < b[0] || (a[0] == b[0] && Less(a[1..], b[1..])))
  }

  lemma {:induction false} LessIrreflexive(a: Name)
    ensures !Less(a, a)
    decreases |a|
  {
    if a != [] {
      LessIrreflexive(a[1..]);
    }
  }

  lemma {:induction false} LessTotal(a: Name, b: Name)
    requires a != b
    ensures Less(a, b) || Less(b, a)
    decreases |a|
  {
    if a != [] && b != [] && a[0] == b[0] {
      assert a == [a[0]] + a[1..] && b == [b[0]] + b[1..];
      LessTotal(a[1..], b[1..]);
    }
  }

  lemma {:induction false} LessTransitive(a: Name, b: Name, c: Name)
    requires Less(a, b) && Less(b, c)
    ensures Less(a, c)
    decreases |a|
  {
    if a != [] && a[0] == b[0] && b[0] == c[0] {
      LessTransitive(a[1..], b[1..], c[1..]);
    }
  }

  /** Strictly increasing in Python's string order. */
  predicate Sorted(s: seq<Name>) {
    forall i :: 0 < i < |s| ==> Less(s[i - 1], s[i])
  }

  /** A sorted list is increasing between any two positions, not just neighbouring ones. */
  lemma {:induction false} SortedApart(s: seq<Name>, i: nat, j: nat)
    requires Sorted(s) && i < j < |s|
    ensures Less(s[i], s[j])
    decreases j - i
  {
    if i + 1 < j {
      SortedApart(s, i + 1, j);
      LessTransitive(s[i], s[i + 1], s[j]);
    }
  }

  /** A set has one sorted listing only. */
  lemma {:induction false} SortedUnique(s: seq<Name>, t: seq<Name>)
    requires Sorted(s) && Sorted(t) && forall n :: n in s <==> n in t
    ensures s == t
    decreases |s|
  {
    if s != [] {
      assert s[0] in t;
    }
    if t != [] {
      assert t[0] in s;
    }
    if s != [] && t != [] {
      var i :| 0 <= i < |s| && s[i] == t[0];
      var j :| 0 <= j < |t| && t[j] == s[0];
      if i > 0 {
        SortedApart(s, 0, i);
        if j > 0 {
          SortedApart(t, 0, j);
          LessTransitive(s[0], t[0], s[0]);
          LessIrreflexive(s[0]);
        }
      }
      assert s[0] == t[0];
      forall n
        ensures n in s[1..] <==> n in t[1..]
      {
        if n in s[1..] {
          var k :| 1 <= k < |s| && s[k] == n;
          SortedApart(s, 0, k);
          LessIrreflexive(n);
          assert n in t;
          var m :| 0 <= m < |t| && t[m] == n;
          assert m != 0;
          assert t[1..][m - 1] == n;
        }
        if n in t[1..] {
          var k :| 1 <= k < |t| && t[k] == n;
          SortedApart(t, 0, k);
          LessIrreflexive(n);
          assert n in s;
          var m :| 0 <= m < |s| && s[m] == n;
          assert m != 0;
          assert s[1..][m - 1] == n;
        }
      }
      SortedUnique(s[1..], t[1..]);
      assert s == [s[0]] + s[1..] && t == [t[0]] + t[1..];
    }
  }

  /** x placed into a sorted list in order. */
  function Insert(x: Name, s: seq<Name>): (r: seq<Name>)
    requires Sorted(s) && x !in s
    ensures Sorted(r) && forall n :: n in r <==> n == x || n in s
    ensures s != [] ==> r[0] == x || r[0] == s[0]
    decreases |s|
  {
    if s == [] then [x]
    else if Less(x, s[0]) then [x] + s
    else (LessTotal(x, s[0]);
          [s[0]] + Insert(x, s[1..]))
  }

  /** sorted(names): the names in increasing order. */
  method SortNames(names: set<Name>) returns (s: seq<Name>)
    ensures Sorted(s) && forall n :: n in s <==> n in names
  {
    s := [];
    var todo := names;
    while todo != {}
      invariant todo <= names && Sorted(s)
      invariant forall n :: n in s <==> n in names - todo
      decreases todo
    {
      var n :| n in todo;
      s := Insert(n, s);
      todo := todo - {n};
    }
  }

  /** sorted(cliques, key=len)[-1]: the last of the largest, the sort being stable. */
  function LastLargest(cliques: seq<set<Name>>): (i: nat)
    requires cliques != []
    ensures i < |cliques|
    ensures forall j :: 0 <= j < |cliques| ==> |cliques[j]| <= |cliques[i]|
    ensures forall j :: i < j < |cliques| ==> |cliques[j]| < |cliques[i]|
    decreases |cliques|
  {
    if |cliques| == 1 then 0
    else
      var k := LastLargest(cliques[..|cliques| - 1]);
      assert forall j :: 0 <= j < |cliques| - 1 ==> cliques[..|cliques| - 1][j] == cliques[j];
      if |cliques[|cliques| - 1]| >= |cliques[k]| then |cliques| - 1 else k
  }

  /** A subset is no larger than its superset. */
  lemma {:induction false} SubsetSize(a: set<Name>, b: set<Name>)
    requires a <= b
    ensures |a| <= |b|
    decreases |b|
  {
    if a != {} {
      var x :| x in a;
      SubsetSize(a - {x}, b - {x});
    }
  }

  /** Cliques of the links, the same thing as cliques of their adjacency list. */
  predicate CliqueOf(links: seq<Link>, c: set<Name>) {
    c <= Names(links) && forall a, b :: a in c && b in c && a != b ==> Linked(links, a, b)
  }

  /**
   * The names of a largest clique of the network, sorted and joined by
   * commas; a loop link would make bron_kerbosch recurse forever.
   */
  method Part2(links: seq<Link>) returns (r: string)
    requires NoSelfLinks(links)
    ensures exists c, s :: CliqueOf(links, c) && (forall d :: CliqueOf(links, d) ==> |d| <= |c|) &&
                           Sorted(s) && (forall n :: n in s <==> n in c) && r == Join(s, ",")
  {
    var adj := AdjacencyList(links);
    AdjacencyShape(links, adj);
    var cliques := FindMaximalCliques(adj);
    ExtendToMaximal(adj, {});
    ghost var m :| Maximal(adj, m);
    assert m in cliques;
    var i := LastLargest(cliques);
    var largest := cliques[i];
    var s := SortNames(largest);
    r := Join(s, ",");
    assert cliques[i] in cliques;
    forall d | CliqueOf(links, d)
      ensures |d| <= |largest|
    {
      assert Clique(adj, d);
      ExtendToMaximal(adj, d);
      var e :| Maximal(adj, e) && d <= e;
      assert e in cliques;
      var j :| 0 <= j < |cliques| && cliques[j] == e;
      SubsetSize(d, e);
    }
    assert CliqueOf(links, largest);
  }
}
