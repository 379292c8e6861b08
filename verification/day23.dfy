/** Day 23: LAN party. Each input line links two computers; part 1 counts
    the triangles of mutually linked computers with at least one name
    starting with 't', and part 2 finds the largest set of computers that
    are all linked to each other, enumerating maximal cliques with the
    Bron–Kerbosch recursion. */
module Day23 {
  import opened Common

  type Name = string

  /** One input line: the two computers it links. */
  type Link = (Name, Name)

  /** Adjacency: every computer to the set of computers it is linked to. */
  type Graph = map<Name, set<Name>>

  /** The link a-b is listed, in either order. */
  ghost predicate Linked(links: seq<Link>, a: Name, b: Name)
  {
    exists i :: 0 <= i < |links| && (links[i] == (a, b) || links[i] == (b, a))
  }

  /** Some line names the computer a. */
  ghost predicate Named(links: seq<Link>, a: Name)
  {
    exists i :: 0 <= i < |links| && (links[i].0 == a || links[i].1 == a)
  }

  predicate Adjacent(graph: Graph, a: Name, b: Name)
  {
    a in graph && b in graph[a]
  }

  // get_graph

  /** graph.entry(a).or_default().insert(b) */
  function Insert(graph: Graph, a: Name, b: Name): Graph
  {
    graph[a := (if a in graph then graph[a] else {}) + {b}]
  }

  /** The adjacency map after the given lines. */
  function GraphOf(links: seq<Link>): Graph
  {
    if links == [] then map[]
    else
      var last := links[|links| - 1];
      Insert(Insert(GraphOf(links[..|links| - 1]), last.0, last.1), last.1, last.0)
  }

  lemma NamedLast(links: seq<Link>, a: Name)
    requires links != []
    ensures Named(links, a) <==> Named(links[..|links| - 1], a) || a == links[|links| - 1].0 || a == links[|links| - 1].1
  {
    var init := links[..|links| - 1];
    if Named(init, a) {
      var i :| 0 <= i < |init| && (init[i].0 == a || init[i].1 == a);
      assert links[i] == init[i];
    }
    if Named(links, a) {
      var i :| 0 <= i < |links| && (links[i].0 == a || links[i].1 == a);
      if i < |init| {
        assert init[i] == links[i];
      }
    }
  }

  lemma LinkedLast(links: seq<Link>, a: Name, b: Name)
    requires links != []
    ensures Linked(links, a, b) <==>
      Linked(links[..|links| - 1], a, b) || links[|links| - 1] == (a, b) || links[|links| - 1] == (b, a)
  {
    var init := links[..|links| - 1];
    if Linked(init, a, b) {
      var i :| 0 <= i < |init| && (init[i] == (a, b) || init[i] == (b, a));
      assert links[i] == init[i];
    }
    if Linked(links, a, b) {
      var i :| 0 <= i < |links| && (links[i] == (a, b) || links[i] == (b, a));
      if i < |init| {
        assert init[i] == links[i];
      }
    }
  }

  /** get_graph: the computers are exactly the named ones, and b is a
      neighbour of a exactly when a-b or b-a is listed. */
  lemma {:induction false} GraphOfSpec(links: seq<Link>)
    ensures forall a :: a in GraphOf(links) <==> Named(links, a)
    ensures forall a, b :: Adjacent(GraphOf(links), a, b) <==> Linked(links, a, b)
  {
    if links != [] {
      GraphOfSpec(links[..|links| - 1]);
      forall a
        ensures a in GraphOf(links) <==> Named(links, a)
      {
        NamedLast(links, a);
      }
      forall a, b
        ensures Adjacent(GraphOf(links), a, b) <==> Linked(links, a, b)
      {
        LinkedLast(links, a, b);
      }
    }
  }

  /** Every neighbour of a is itself linked back to a. */
  ghost predicate Symmetric(graph: Graph)
  {
    forall a, b :: Adjacent(graph, a, b) ==> Adjacent(graph, b, a)
  }

  /** No computer is its own neighbour. */
  ghost predicate Loopless(graph: Graph)
  {
    forall a :: !Adjacent(graph, a, a)
  }

  /** The adjacency map is symmetric, and has no loop when no line links a
      computer to itself. */
  lemma GraphOfSymmetric(links: seq<Link>)
    ensures Symmetric(GraphOf(links))
    ensures (forall i :: 0 <= i < |links| ==> links[i].0 != links[i].1) ==> Loopless(GraphOf(links))
  {
    GraphOfSpec(links);
  }

  /** The filling loop of get_graph, one line at a time. */
  method GetGraph(links: seq<Link>) returns (graph: Graph)
    ensures graph == GraphOf(links)
    ensures forall a, b :: Adjacent(graph, a, b) <==> Linked(links, a, b)
  {
    graph := map[];
    for i := 0 to |links|
      invariant graph == GraphOf(links[..i])
    {
      var a, b := links[i].0, links[i].1;
      graph := Insert(graph, a, b);
      graph := Insert(graph, b, a);
      assert links[..i + 1][..i] == links[..i];
    }
    assert links[..|links|] == links;
    GraphOfSpec(links);
  }

  // Part 1: triangles with a chief historian candidate.

  /** The name starts with the letter t. */
  predicate Chief(name: Name)
  {
    |name| > 0 && name[0] == 't'
  }

  /** Lexicographic order of names, character by character. */
  predicate LexLeq(a: Name, b: Name)
  {
    a == [] || (b != [] && (a[0] < b[0] || (a[0] == b[0] && LexLeq(a[1..], b[1..]))))
  }

  lemma {:induction false} LexTotal(a: Name, b: Name)
    ensures LexLeq(a, b) || LexLeq(b, a)
  {
    if a != [] && b != [] && a[0] == b[0] {
      LexTotal(a[1..], b[1..]);
    }
  }

  lemma {:induction false} LexAntisymmetric(a: Name, b: Name)
    requires LexLeq(a, b) && LexLeq(b, a)
    ensures a == b
  {
    if a != [] {
      LexAntisymmetric(a[1..], b[1..]);
      assert a == [a[0]] + a[1..] && b == [b[0]] + b[1..];
    }
  }

  lemma {:induction false} LexTransitive(a: Name, b: Name, c: Name)
    requires LexLeq(a, b) && LexLeq(b, c)
    ensures LexLeq(a, c)
  {
    if a != [] && a[0] == b[0] && b[0] == c[0] {
      LexTransitive(a[1..], b[1..], c[1..]);
    }
  }

  /** get_data's pair sort: the same two names, in order. */
  function Sort2(l: Link): (r: Link)
    ensures LexLeq(r.0, r.1)
    ensures r == l || r == (l.1, l.0)
  {
    LexTotal(l.0, l.1);
    if LexLeq(l.0, l.1) then l else (l.1, l.0)
  }

  type Triple = (Name, Name, Name)

  /** part_1's triple sort: the same three names, in order. */
  function Sort3(t: Triple): (r: Triple)
    ensures LexLeq(r.0, r.1) && LexLeq(r.1, r.2)
  {
    var (a, b, c) := t;
    LexTotal(a, b);
    LexTotal(b, c);
    LexTotal(a, c);
    if LexLeq(a, b) then
      if LexLeq(b, c) then (a, b, c) else if LexLeq(a, c) then (a, c, b) else (c, a, b)
    else
      if LexLeq(a, c) then (b, a, c) else if LexLeq(b, c) then (b, c, a) else (c, b, a)
  }

  /** Sorting three names keeps them, each as often as it occurs. */
  lemma Sort3Permutes(t: Triple)
    ensures var r := Sort3(t); multiset{r.0, r.1, r.2} == multiset{t.0, t.1, t.2}
  {
    var (a, b, c) := t;
    var r := Sort3(t);
    assert r == (a, b, c) || r == (a, c, b) || r == (c, a, b) || r == (b, a, c) || r == (b, c, a) || r == (c, b, a);
  }

  /** The set of sorted links. */
  function EdgeSet(links: seq<Link>): set<Link>
  {
    set i | 0 <= i < |links| :: Sort2(links[i])
  }

  /** A sorted pair is in the edge set exactly when the two are linked. */
  lemma EdgeSetLinked(links: seq<Link>, a: Name, b: Name)
    requires LexLeq(a, b)
    ensures (a, b) in EdgeSet(links) <==> Linked(links, a, b)
  {
    if (a, b) in EdgeSet(links) {
      var i :| 0 <= i < |links| && Sort2(links[i]) == (a, b);
      assert links[i] == (a, b) || links[i] == (b, a);
    }
    if Linked(links, a, b) {
      var i :| 0 <= i < |links| && (links[i] == (a, b) || links[i] == (b, a));
      if links[i] == (b, a) && LexLeq(b, a) {
        LexAntisymmetric(a, b);
      }
      assert Sort2(links[i]) == (a, b);
    }
  }

  /** (a, b, c) for every c of later, in order. */
  function Fan(a: Name, b: Name, later: seq<Name>): (r: seq<Triple>)
    ensures |r| == |later|
    ensures forall k :: 0 <= k < |later| ==> r[k] == (a, b, later[k])
  {
    seq(|later|, k requires 0 <= k < |later| => (a, b, later[k]))
  }

  /** (a, rest[j], rest[k]) for every j < k, in tuple_combinations order. */
  function WithFirst(a: Name, rest: seq<Name>): seq<Triple>
  {
    if rest == [] then []
    else Fan(a, rest[0], rest[1..]) + WithFirst(a, rest[1..])
  }

  lemma {:induction false} WithFirstMembers(a: Name, rest: seq<Name>, t: Triple)
    ensures t in WithFirst(a, rest) <==> exists j, k :: 0 <= j < k < |rest| && t == (a, rest[j], rest[k])
  {
    if rest != [] {
      var head := Fan(a, rest[0], rest[1..]);
      WithFirstMembers(a, rest[1..], t);
      if t in head {
        var k :| 0 <= k < |head| && head[k] == t;
        assert t == (a, rest[0], rest[k + 1]);
      }
      if t in WithFirst(a, rest[1..]) {
        var j, k :| 0 <= j < k < |rest[1..]| && t == (a, rest[1..][j], rest[1..][k]);
        assert t == (a, rest[j + 1], rest[k + 1]);
      }
      if j, k :| 0 <= j < k < |rest| && t == (a, rest[j], rest[k]) {
        if j == 0 {
          assert head[k - 1] == t;
        } else {
          assert t == (a, rest[1..][j - 1], rest[1..][k - 1]);
        }
      }
    }
  }

  /** Every triple of vertices in index order: tuple_combinations. */
  function Combos(vs: seq<Name>): seq<Triple>
  {
    if vs == [] then [] else WithFirst(vs[0], vs[1..]) + Combos(vs[1..])
  }

  /** Three indices in order either start at 0 or all lie in the tail. */
  lemma CombosSplit(vs: seq<Name>, t: Triple)
    requires vs != []
    ensures var rest := vs[1..];
      (exists i, j, k :: 0 <= i < j < k < |vs| && t == (vs[i], vs[j], vs[k])) <==>
      (exists j, k :: 0 <= j < k < |rest| && t == (vs[0], rest[j], rest[k]))
      || (exists i, j, k :: 0 <= i < j < k < |rest| && t == (rest[i], rest[j], rest[k]))
  {
    var rest := vs[1..];
    if j, k :| 0 <= j < k < |rest| && t == (vs[0], rest[j], rest[k]) {
      assert t == (vs[0], vs[j + 1], vs[k + 1]);
    }
    if i, j, k :| 0 <= i < j < k < |rest| && t == (rest[i], rest[j], rest[k]) {
      assert t == (vs[i + 1], vs[j + 1], vs[k + 1]);
    }
    if i, j, k :| 0 <= i < j < k < |vs| && t == (vs[i], vs[j], vs[k]) {
      if i == 0 {
        assert t == (vs[0], rest[j - 1], rest[k - 1]);
      } else {
        assert t == (rest[i - 1], rest[j - 1], rest[k - 1]);
      }
    }
  }

  lemma {:induction false} CombosMembers(vs: seq<Name>, t: Triple)
    ensures t in Combos(vs) <==> exists i, j, k :: 0 <= i < j < k < |vs| && t == (vs[i], vs[j], vs[k])
  {
    if vs != [] {
      var rest := vs[1..];
      WithFirstMembers(vs[0], rest, t);
      CombosMembers(rest, t);
      CombosSplit(vs, t);
      assert t in Combos(vs) <==> t in WithFirst(vs[0], rest) || t in Combos(rest);
    }
  }

  /** The two filters of part_1 on a sorted triple. */
  predicate Keep(t: Triple, edges: set<Link>)
  {
    (Chief(t.0) || Chief(t.1) || Chief(t.2))
    && (t.0, t.1) in edges && (t.0, t.2) in edges && (t.1, t.2) in edges
  }

  /** part_1's map and filters over the combinations. */
  function Triangles(combos: seq<Triple>, edges: set<Link>): seq<Triple>
  {
    if combos == [] then []
    else
      var t := Sort3(combos[0]);
      (if Keep(t, edges) then [t] else []) + Triangles(combos[1..], edges)
  }

  /** Every combination, sorted. */
  function Sorts(combos: seq<Triple>): (r: seq<Triple>)
    ensures |r| == |combos|
  {
    seq(|combos|, i requires 0 <= i < |combos| => Sort3(combos[i]))
  }

  lemma SortsCons(combos: seq<Triple>)
    requires combos != []
    ensures Sorts(combos) == [Sort3(combos[0])] + Sorts(combos[1..])
  {
  }

  lemma {:induction false} TrianglesMembers(combos: seq<Triple>, edges: set<Link>, t: Triple)
    ensures t in Triangles(combos, edges) <==> Keep(t, edges) && t in Sorts(combos)
  {
    if combos != [] {
      TrianglesMembers(combos[1..], edges, t);
      var head := Sort3(combos[0]);
      var kept := if Keep(head, edges) then [head] else [];
      assert Triangles(combos, edges) == kept + Triangles(combos[1..], edges);
      SortsCons(combos);
    }
  }

  /** part_1: the number of reported triples. */
  function Part1(links: seq<Link>, vertices: seq<Name>): nat
  {
    |Triangles(Combos(vertices), EdgeSet(links))|
  }

  /** On a sorted triple, part_1's filters ask for a name t... and three
      listed links. */
  lemma KeepLinked(links: seq<Link>, t: Triple)
    requires LexLeq(t.0, t.1) && LexLeq(t.1, t.2)
    ensures Keep(t, EdgeSet(links)) <==>
      (Chief(t.0) || Chief(t.1) || Chief(t.2))
      && Linked(links, t.0, t.1) && Linked(links, t.0, t.2) && Linked(links, t.1, t.2)
  {
    EdgeSetLinked(links, t.0, t.1);
    EdgeSetLinked(links, t.1, t.2);
    LexTransitive(t.0, t.1, t.2);
    EdgeSetLinked(links, t.0, t.2);
  }

  /** The sorted combinations are the sorted arrangements of three vertices
      taken in index order. */
  lemma SortedCombo(vertices: seq<Name>, t: Triple)
    ensures t in Sorts(Combos(vertices)) <==>
      exists i, j, k :: 0 <= i < j < k < |vertices| && t == Sort3((vertices[i], vertices[j], vertices[k]))
  {
    var sorts := Sorts(Combos(vertices));
    if t in sorts {
      var n :| 0 <= n < |sorts| && sorts[n] == t;
      CombosMembers(vertices, Combos(vertices)[n]);
    }
    if i, j, k :| 0 <= i < j < k < |vertices| && t == Sort3((vertices[i], vertices[j], vertices[k])) {
      var c := (vertices[i], vertices[j], vertices[k]);
      CombosMembers(vertices, c);
      var n :| 0 <= n < |Combos(vertices)| && Combos(vertices)[n] == c;
      assert sorts[n] == t;
    }
  }

  /** A reported triple is a sorted arrangement of three vertices, one of
      them named t..., that are pairwise linked; and every such arrangement
      is reported. */
  lemma Part1Reports(links: seq<Link>, vertices: seq<Name>, t: Triple)
    ensures t in Triangles(Combos(vertices), EdgeSet(links)) <==>
      (exists i, j, k :: 0 <= i < j < k < |vertices| && t == Sort3((vertices[i], vertices[j], vertices[k])))
      && (Chief(t.0) || Chief(t.1) || Chief(t.2))
      && Linked(links, t.0, t.1) && Linked(links, t.0, t.2) && Linked(links, t.1, t.2)
  {
    TrianglesMembers(Combos(vertices), EdgeSet(links), t);
    SortedCombo(vertices, t);
    if exists i, j, k :: 0 <= i < j < k < |vertices| && t == Sort3((vertices[i], vertices[j], vertices[k])) {
      KeepLinked(links, t);
    }
  }

  /** The names of a triple, each as often as it occurs. */
  function Bag(t: Triple): multiset<Name>
  {
    multiset{t.0, t.1, t.2}
  }

  /** No two triples of the list hold the same three names. */
  ghost predicate BagDistinct(ts: seq<Triple>)
  {
    forall m, n :: 0 <= m < n < |ts| ==> Bag(ts[m]) != Bag(ts[n])
  }

  lemma BagDistinctAppend(x: seq<Triple>, y: seq<Triple>)
    requires BagDistinct(x) && BagDistinct(y)
    requires forall m, n :: 0 <= m < |x| && 0 <= n < |y| ==> Bag(x[m]) != Bag(y[n])
    ensures BagDistinct(x + y)
  {
    forall m, n | 0 <= m < n < |x + y| ensures Bag((x + y)[m]) != Bag((x + y)[n]) {
      if n < |x| {
      } else if m >= |x| {
        assert Bag(y[m - |x|]) != Bag(y[n - |x|]);
      } else {
        assert Bag(x[m]) != Bag(y[n - |x|]);
      }
    }
  }

  lemma NoDuplicatesTail(s: seq<Name>)
    requires NoDuplicates(s) && s != []
    ensures NoDuplicates(s[1..]) && s[0] !in s[1..]
  {
    forall j | 0 <= j < |s[1..]| ensures s[1..][j] != s[0] {
      assert s[1..][j] == s[j + 1];
    }
  }

  /** Triples that share two names and differ in the third hold different
      names. */
  lemma FanDistinct(a: Name, b: Name, later: seq<Name>)
    requires NoDuplicates(later) && a !in later && b !in later
    ensures BagDistinct(Fan(a, b, later))
  {
    var f := Fan(a, b, later);
    forall m, n | 0 <= m < n < |f| ensures Bag(f[m]) != Bag(f[n]) {
      assert later[n] in Bag(f[n]);
      assert later[n] != later[m];
    }
  }

  /** Every triple of the fan holds b; no later combination with first
      name a does. */
  lemma FanApart(a: Name, b: Name, later: seq<Name>)
    requires a != b && b !in later
    ensures forall m, n :: 0 <= m < |later| && 0 <= n < |WithFirst(a, later)| ==>
      Bag(Fan(a, b, later)[m]) != Bag(WithFirst(a, later)[n])
  {
    var f := Fan(a, b, later);
    var w := WithFirst(a, later);
    forall m, n | 0 <= m < |later| && 0 <= n < |w| ensures Bag(f[m]) != Bag(w[n]) {
      WithFirstMembers(a, later, w[n]);
      var j, k :| 0 <= j < k < |later| && w[n] == (a, later[j], later[k]);
      assert b in Bag(f[m]);
      assert later[j] != b && later[k] != b;
    }
  }

  /** With distinct names, the combinations starting with a hold pairwise
      different sets of names. */
  lemma {:induction false} WithFirstDistinct(a: Name, rest: seq<Name>)
    requires NoDuplicates(rest) && a !in rest
    ensures BagDistinct(WithFirst(a, rest))
  {
    if rest != [] {
      NoDuplicatesTail(rest);
      assert a != rest[0];
      assert a !in rest[1..];
      WithFirstDistinct(a, rest[1..]);
      FanDistinct(a, rest[0], rest[1..]);
      FanApart(a, rest[0], rest[1..]);
      BagDistinctAppend(Fan(a, rest[0], rest[1..]), WithFirst(a, rest[1..]));
    }
  }

  /** No combination of later vertices holds a. */
  lemma CombosApart(a: Name, rest: seq<Name>)
    requires a !in rest
    ensures forall m, n :: 0 <= m < |WithFirst(a, rest)| && 0 <= n < |Combos(rest)| ==>
      Bag(WithFirst(a, rest)[m]) != Bag(Combos(rest)[n])
  {
    var w := WithFirst(a, rest);
    forall m, n | 0 <= m < |w| && 0 <= n < |Combos(rest)| ensures Bag(w[m]) != Bag(Combos(rest)[n]) {
      WithFirstMembers(a, rest, w[m]);
      CombosMembers(rest, Combos(rest)[n]);
      var i, j, k :| 0 <= i < j < k < |rest| && Combos(rest)[n] == (rest[i], rest[j], rest[k]);
      assert rest[i] != a && rest[j] != a && rest[k] != a;
      assert a in Bag(w[m]);
    }
  }

  /** With distinct vertices, no two combinations hold the same names. */
  lemma {:induction false} CombosDistinct(vs: seq<Name>)
    requires NoDuplicates(vs)
    ensures BagDistinct(Combos(vs))
  {
    if vs != [] {
      var rest := vs[1..];
      NoDuplicatesTail(vs);
      WithFirstDistinct(vs[0], rest);
      CombosDistinct(rest);
      CombosApart(vs[0], rest);
      BagDistinctAppend(WithFirst(vs[0], rest), Combos(rest));
    }
  }

  /** Sorting a combination keeps its names. */
  lemma SortsBag(combos: seq<Triple>, q: nat)
    requires q < |combos|
    ensures Bag(Sorts(combos)[q]) == Bag(combos[q])
  {
    Sort3Permutes(combos[q]);
  }

  /** A triple reported from the later combinations does not hold the
      names of the first one. */
  lemma NotLater(combos: seq<Triple>, edges: set<Link>, x: Triple)
    requires BagDistinct(combos) && combos != []
    requires x in Triangles(combos[1..], edges)
    ensures Bag(x) != Bag(combos[0])
  {
    var rest := combos[1..];
    TrianglesMembers(rest, edges, x);
    var q :| 0 <= q < |rest| && Sorts(rest)[q] == x;
    SortsBag(rest, q);
    assert rest[q] == combos[q + 1];
  }

  lemma BagDistinctTail(combos: seq<Triple>)
    requires BagDistinct(combos) && combos != []
    ensures BagDistinct(combos[1..])
  {
    var rest := combos[1..];
    forall m, n | 0 <= m < n < |rest| ensures Bag(rest[m]) != Bag(rest[n]) {
      assert rest[m] == combos[m + 1] && rest[n] == combos[n + 1];
    }
  }

  lemma NoDuplicatesCons(x: Triple, s: seq<Triple>)
    requires NoDuplicates(s) && x !in s
    ensures NoDuplicates([x] + s)
  {
    forall i, j | 0 <= i < j < |[x] + s| ensures ([x] + s)[i] != ([x] + s)[j] {
      assert ([x] + s)[j] == s[j - 1];
      if i > 0 {
        assert ([x] + s)[i] == s[i - 1];
      }
    }
  }

  /** Combinations with pairwise different names give a report without
      repeats. */
  lemma {:induction false} TrianglesDistinct(combos: seq<Triple>, edges: set<Link>)
    requires BagDistinct(combos)
    ensures NoDuplicates(Triangles(combos, edges))
  {
    if combos != [] {
      var rest := combos[1..];
      BagDistinctTail(combos);
      TrianglesDistinct(rest, edges);
      var t := Sort3(combos[0]);
      var later := Triangles(rest, edges);
      if Keep(t, edges) {
        assert Triangles(combos, edges) == [t] + later;
        Sort3Permutes(combos[0]);
        if t in later {
          NotLater(combos, edges, t);
        }
        NoDuplicatesCons(t, later);
      } else {
        assert Triangles(combos, edges) == later;
      }
    }
  }

  /** t is the sorted arrangement of three vertices at increasing indices,
      one of them named t..., that are pairwise linked. */
  ghost predicate ChiefTriangle(links: seq<Link>, vertices: seq<Name>, t: Triple)
  {
    (exists i, j, k :: 0 <= i < j < k < |vertices| && t == Sort3((vertices[i], vertices[j], vertices[k])))
    && (Chief(t.0) || Chief(t.1) || Chief(t.2))
    && Linked(links, t.0, t.1) && Linked(links, t.0, t.2) && Linked(links, t.1, t.2)
  }

  /** All such triangles. */
  ghost function ChiefTriangles(links: seq<Link>, vertices: seq<Name>): (r: set<Triple>)
    ensures forall t :: t in r <==> ChiefTriangle(links, vertices, t)
  {
    var r := set i, j, k | 0 <= i < j < k < |vertices| && ChiefTriangle(links, vertices, Sort3((vertices[i], vertices[j], vertices[k])))
      :: Sort3((vertices[i], vertices[j], vertices[k]));
    ChiefTrianglesComplete(links, vertices, r);
    r
  }

  lemma ChiefTrianglesComplete(links: seq<Link>, vertices: seq<Name>, r: set<Triple>)
    requires forall i, j, k :: (0 <= i < j < k < |vertices| && ChiefTriangle(links, vertices, Sort3((vertices[i], vertices[j], vertices[k]))))
                               ==> Sort3((vertices[i], vertices[j], vertices[k])) in r
    ensures forall t :: ChiefTriangle(links, vertices, t) ==> t in r
  {
    forall t | ChiefTriangle(links, vertices, t) ensures t in r {
      var i, j, k :| 0 <= i < j < k < |vertices| && t == Sort3((vertices[i], vertices[j], vertices[k]));
    }
  }

  lemma SetOfSeq(s: seq<Triple>, r: set<Triple>)
    requires forall t :: t in s <==> t in r
    ensures (set x | x in s) == r
  {
  }

  /** The vertices come from a set, so none repeats; part_1 then counts
      each triangle with a chief once. */
  lemma Part1Count(links: seq<Link>, vertices: seq<Name>)
    requires NoDuplicates(vertices)
    ensures Part1(links, vertices) == |ChiefTriangles(links, vertices)|
  {
    var report := Triangles(Combos(vertices), EdgeSet(links));
    var triangles := ChiefTriangles(links, vertices);
    CombosDistinct(vertices);
    TrianglesDistinct(Combos(vertices), EdgeSet(links));
    DistinctCount(report);
    forall t ensures t in report <==> t in triangles {
      Part1Reports(links, vertices, t);
    }
    SetOfSeq(report, triangles);
  }

  // Part 2: maximal cliques by Bron–Kerbosch.

  /** Every two distinct members are neighbours. */
  ghost predicate Clique(graph: Graph, c: set<Name>)
  {
    c <= graph.Keys && forall a, b :: a in c && b in c && a != b ==> Adjacent(graph, a, b)
  }

  /** The computers outside r that are neighbours of every member of r. */
  ghost function Joinable(graph: Graph, r: set<Name>): set<Name>
  {
    set v | v in graph && v !in r && forall u :: u in r ==> Adjacent(graph, u, v)
  }

  /** A clique no further computer can join. */
  ghost predicate Maximal(graph: Graph, c: set<Name>)
  {
    Clique(graph, c) && Joinable(graph, c) == {}
  }

  /** Adding a common neighbour keeps a clique, and the common neighbours of
      the larger clique are the old ones adjacent to the newcomer. */
  lemma Grow(graph: Graph, r: set<Name>, v: Name)
    requires Symmetric(graph) && Loopless(graph)
    requires Clique(graph, r) && v in Joinable(graph, r)
    ensures Clique(graph, r + {v})
    ensures Joinable(graph, r + {v}) == Joinable(graph, r) * graph[v]
  {
    forall w | w in Joinable(graph, r) * graph[v]
      ensures w in Joinable(graph, r + {v})
    {
      assert Adjacent(graph, v, w);
    }
  }

  /** A member of a clique c beyond r is a common neighbour of r. */
  lemma Beyond(graph: Graph, r: set<Name>, c: set<Name>, w: Name)
    requires Clique(graph, c) && r <= c && w in c - r
    ensures w in Joinable(graph, r)
  {
  }

  /** found extends results by new entries only. */
  ghost predicate Extends(found: seq<set<Name>>, results: seq<set<Name>>)
  {
    |results| <= |found| && found[..|results|] == results
  }

  /** c is one of the entries found appends to results. */
  ghost predicate Reported(found: seq<set<Name>>, results: seq<set<Name>>, c: set<Name>)
  {
    exists i :: |results| <= i < |found| && found[i] == c
  }

  /** Every entry appended to results is a maximal clique containing r. */
  ghost predicate Sound(graph: Graph, r: set<Name>, results: seq<set<Name>>, found: seq<set<Name>>)
  {
    Extends(found, results) && forall i :: |results| <= i < |found| ==> Maximal(graph, found[i]) && r <= found[i]
  }

  /** Every maximal clique containing r, avoiding x and meeting y has been
      appended to results. */
  ghost predicate Complete(graph: Graph, r: set<Name>, x: set<Name>, y: set<Name>, results: seq<set<Name>>, found: seq<set<Name>>)
  {
    forall c :: Maximal(graph, c) && r <= c && c !! x && !(c !! y) ==> Reported(found, results, c)
  }

  lemma ReportedStays(older: seq<set<Name>>, found: seq<set<Name>>, found': seq<set<Name>>, c: set<Name>)
    requires Extends(found, older) && Extends(found', found) && Reported(found, older, c)
    ensures Extends(found', older) && Reported(found', older, c)
  {
    var i :| |older| <= i < |found| && found[i] == c;
    assert found'[i] == found'[..|found|][i];
    assert found'[..|older|] == found'[..|found|][..|older|];
  }

  lemma MoveOne(p: set<Name>, x: set<Name>, v: Name)
    requires v in p
    ensures (p - {v}) + (x + {v}) == p + x
  {
  }

  /** The branch on v recurses on a smaller candidate set. */
  lemma Shrinks(graph: Graph, p: set<Name>, p': set<Name>, v: Name)
    requires Loopless(graph) && p' <= p && v in p' && v in graph
    ensures |p' * graph[v]| < |p|
  {
    assert p' * graph[v] <= p - {v} by {
      assert !Adjacent(graph, v, v);
    }
    assert p == (p' * graph[v]) + (p - (p' * graph[v]));
  }

  /** The arguments of the branch on v meet bron_kerbosch's requirements. */
  lemma BranchReady(graph: Graph, r: set<Name>, p: set<Name>, p': set<Name>, x': set<Name>, v: Name)
    requires Symmetric(graph) && Loopless(graph)
    requires Clique(graph, r) && p' !! x' && p' + x' == Joinable(graph, r) && p' <= p && v in p'
    ensures v in graph && Clique(graph, r + {v})
    ensures (p' * graph[v]) !! (x' * graph[v])
    ensures (p' * graph[v]) + (x' * graph[v]) == Joinable(graph, r + {v})
    ensures |p' * graph[v]| < |p|
  {
    Grow(graph, r, v);
    Shrinks(graph, p, p', v);
  }

  /** Entries appended before and during a branch on v are all maximal
      cliques containing r. */
  lemma SoundStays(graph: Graph, r: set<Name>, v: Name, results: seq<set<Name>>, before: seq<set<Name>>, found: seq<set<Name>>)
    requires Sound(graph, r, results, before) && Sound(graph, r + {v}, before, found)
    ensures Sound(graph, r, results, found)
  {
    forall i | |results| <= i < |before|
      ensures found[i] == before[i]
    {
      assert found[i] == found[..|before|][i];
    }
    assert found[..|results|] == found[..|before|][..|results|];
  }

  /** After the branch on v, every maximal clique containing r, avoiding
      the original x and meeting x + {v} is reported: those meeting x were
      reported before, and those containing v by the branch. */
  lemma CompleteStays(graph: Graph, r: set<Name>, x: set<Name>, x': set<Name>, v: Name,
                      results: seq<set<Name>>, before: seq<set<Name>>, found: seq<set<Name>>)
    requires Extends(before, results) && Extends(found, before)
    requires Complete(graph, r, x, x', results, before)
    requires forall c :: Maximal(graph, c) && r + {v} <= c && c !! (x' * graph[v]) ==> Reported(found, before, c)
    ensures Complete(graph, r, x, x' + {v}, results, found)
  {
    forall c | Maximal(graph, c) && r <= c && c !! x && !(c !! (x' + {v}))
      ensures Reported(found, results, c)
    {
      if !(c !! x') {
        ReportedStays(results, before, found, c);
      } else {
        assert r + {v} <= c && c !! (x' * graph[v]);
        var i :| |before| <= i < |found| && found[i] == c;
      }
    }
  }

  /** Once every candidate has moved to x, every maximal clique containing
      r and avoiding the original x has been reported: r itself when it
      has no common neighbour, any larger one through a member in x. */
  lemma CompleteAtEnd(graph: Graph, r: set<Name>, p: set<Name>, x: set<Name>, x': set<Name>,
                      results: seq<set<Name>>, found: seq<set<Name>>)
    requires p + x == Joinable(graph, r) && x' == p + x
    requires p == {} && x == {} ==> found == results + [r]
    requires Complete(graph, r, x, x', results, found)
    ensures forall c :: Maximal(graph, c) && r <= c && c !! x ==> Reported(found, results, c)
  {
    forall c | Maximal(graph, c) && r <= c && c !! x
      ensures Reported(found, results, c)
    {
      if c == r {
        assert found[|results|] == r;
      } else {
        assert c == r + (c - r);
        var w :| w in c - r;
        Beyond(graph, r, c, w);
        assert w in c * x';
      }
    }
  }

  /** bron_kerbosch: r is a clique and p, x split its common neighbours.
      Every set it appends is a maximal clique containing r, and it appends
      every maximal clique containing r that avoids x. */
  method BronKerbosch(r: set<Name>, p: set<Name>, x: set<Name>, graph: Graph, results: seq<set<Name>>)
    returns (found: seq<set<Name>>)
    requires Symmetric(graph) && Loopless(graph)
    requires Clique(graph, r) && p !! x && p + x == Joinable(graph, r)
    ensures Extends(found, results)
    ensures forall i :: |results| <= i < |found| ==> Maximal(graph, found[i]) && r <= found[i]
    ensures forall c :: Maximal(graph, c) && r <= c && c !! x ==> Reported(found, results, c)
    decreases |p|
  {
    found := results;
    if p == {} && x == {} {
      found := found + [r];
    }
    var p', x' := p, x;
    while p' != {}
      invariant p' <= p && x <= x' && p' !! x' && p' + x' == p + x
      invariant p == {} && x == {} ==> found == results + [r]
      invariant Sound(graph, r, results, found)
      invariant Complete(graph, r, x, x', results, found)
      decreases |p'|
    {
      var v :| v in p';
      BranchReady(graph, r, p, p', x', v);
      var before := found;
      found := BronKerbosch(r + {v}, p' * graph[v], x' * graph[v], graph, found);
      SoundStays(graph, r, v, results, before, found);
      CompleteStays(graph, r, x, x', v, results, before, found);
      MoveOne(p', x', v);
      p' := p' - {v};
      x' := x' + {v};
    }
    CompleteAtEnd(graph, r, p, x, x', results, found);
  }

  lemma SubsetCard(a: set<Name>, b: set<Name>)
    requires a <= b
    ensures |a| <= |b|
  {
    assert b == a + (b - a);
  }

  /** Every clique lies inside a maximal one. */
  lemma {:induction false} ExtendToMaximal(graph: Graph, c: set<Name>) returns (m: set<Name>)
    requires Symmetric(graph) && Loopless(graph) && Clique(graph, c)
    ensures Maximal(graph, m) && c <= m
    decreases |graph.Keys - c|
  {
    if Joinable(graph, c) == {} {
      m := c;
    } else {
      var v :| v in Joinable(graph, c);
      Grow(graph, c, v);
      assert graph.Keys - (c + {v}) < graph.Keys - c;
      m := ExtendToMaximal(graph, c + {v});
    }
  }

  /** max_by on the size: the last of the largest entries, or None when
      there are none. */
  function Largest(rs: seq<set<Name>>): (r: Option<set<Name>>)
    ensures r.None? <==> rs == []
    ensures r.Some? ==> r.value in rs && forall i :: 0 <= i < |rs| ==> |rs[i]| <= |r.value|
  {
    if rs == [] then None
    else
      var rest := Largest(rs[..|rs| - 1]);
      if rest.Some? && |rest.value| > |rs[|rs| - 1]| then rest else Some(rs[|rs| - 1])
  }

  /** When the entries are exactly the maximal cliques, a largest entry
      is a maximum clique. */
  lemma LargestIsMaximum(graph: Graph, results: seq<set<Name>>)
    requires Symmetric(graph) && Loopless(graph)
    requires forall i :: 0 <= i < |results| ==> Maximal(graph, results[i])
    requires forall c :: Maximal(graph, c) ==> Reported(results, [], c)
    ensures Largest(results).Some?
    ensures Maximal(graph, Largest(results).value)
    ensures forall c :: Clique(graph, c) ==> |c| <= |Largest(results).value|
  {
    var some := ExtendToMaximal(graph, {});
    assert Reported(results, [], some);
    var largest := Largest(results).value;
    forall c | Clique(graph, c)
      ensures |c| <= |largest|
    {
      var m := ExtendToMaximal(graph, c);
      assert Reported(results, [], m);
      SubsetCard(c, m);
    }
  }

  /** part_2: build the graph, enumerate its maximal cliques from every
      computer as a candidate, and keep a largest one: a maximum clique.
      A line linking a computer to itself would make the recursion run
      forever, so there is none. */
  method Part2(links: seq<Link>) returns (largest: set<Name>)
    requires forall i :: 0 <= i < |links| ==> links[i].0 != links[i].1
    ensures Maximal(GraphOf(links), largest)
    ensures forall c :: Clique(GraphOf(links), c) ==> |c| <= |largest|
  {
    var graph := GetGraph(links);
    GraphOfSymmetric(links);
    assert Joinable(graph, {}) == graph.Keys;
    var results := BronKerbosch({}, graph.Keys, {}, graph, []);
    LargestIsMaximum(graph, results);
    largest := Largest(results).value;
  }
}
