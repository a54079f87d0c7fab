/**
 * The npm audit gate's `via` chain validator: a memoised depth-first search, proved to accept a
 * vulnerability graph exactly when it is closed, acyclic, and every record is labelled with the
 * highest advisory severity reachable from it.
 */
module AuditGraph {

  datatype Severity = Info | Low | Moderate | High | Critical

  function Rank(s: Severity): nat {
    match s case Info => 0 case Low => 1 case Moderate => 2 case High => 3 case Critical => 4
  }

  /** The five severities in their order, so that a maximum of ranks is the gravest severity. */
  lemma SeverityOrder(s: Severity, t: Severity)
    ensures Rank(Info) < Rank(Low) < Rank(Moderate) < Rank(High) < Rank(Critical)
    ensures Rank(s) == Rank(t) ==> s == t
  {
  }

  datatype Via = Package(name: string) | Advisory(severity: Severity)

  datatype Record = Record(severity: Severity, via: seq<Via>)

  type Graph = map<string, Record>

  // ----- the meaning of a good graph, without any search -----

  ghost predicate Edge(g: Graph, a: string, b: string) {
    a in g && Package(b) in g[a].via
  }

  ghost predicate IsPath(g: Graph, p: seq<string>) {
    && p != [] && (forall i :: 0 <= i < |p| ==> p[i] in g)
    && forall i, j :: 0 <= i < |p| - 1 && j == i + 1 ==> Edge(g, p[i], p[j])
  }

  ghost predicate PathFromTo(g: Graph, p: seq<string>, a: string, b: string) {
    IsPath(g, p) && p[0] == a && p[|p| - 1] == b
  }

  ghost predicate Reaches(g: Graph, a: string, b: string) {
    exists p :: PathFromTo(g, p, a, b)
  }

  ghost predicate Cycle(g: Graph, p: seq<string>) {
    |p| >= 2 && PathFromTo(g, p, p[0], p[0])
  }

  ghost predicate Acyclic(g: Graph) {
    forall p :: !Cycle(g, p)
  }

  ghost predicate Closed(g: Graph) {
    forall a, b :: Edge(g, a, b) ==> b in g
  }

  /** Some record reachable from `n` carries an advisory of severity `s`. */
  ghost predicate Causes(g: Graph, n: string, s: Severity) {
    exists m :: m in g && Reaches(g, n, m) && Advisory(s) in g[m].via
  }

  ghost predicate HighestReachable(g: Graph, n: string, rank: nat) {
    && (exists s :: Causes(g, n, s) && Rank(s) == rank)
    && (forall s :: Causes(g, n, s) ==> Rank(s) <= rank)
  }

  ghost predicate Acceptable(g: Graph) {
    && Closed(g)
    && Acyclic(g)
    && forall n :: n in g ==> HighestReachable(g, n, Rank(g[n].severity))
  }

  // ----- reachability -----

  lemma ReachesSelf(g: Graph, n: string)
    requires n in g
    ensures Reaches(g, n, n)
  {
    assert PathFromTo(g, [n], n, n);
  }

  lemma ReachesThrough(g: Graph, a: string, b: string, c: string)
    requires Edge(g, a, b) && Reaches(g, b, c)
    ensures Reaches(g, a, c)
  {
    var p :| PathFromTo(g, p, b, c);
    assert PathFromTo(g, [a] + p, a, c);
  }

  lemma FirstStep(g: Graph, a: string, c: string) returns (b: string)
    requires Reaches(g, a, c) && a != c
    ensures Edge(g, a, b) && b in g && Reaches(g, b, c)
  {
    var p :| PathFromTo(g, p, a, c);
    b := p[1];
    assert PathFromTo(g, p[1..], b, c);
  }

  /** The causes of a record are its own advisories and the causes of the packages it names. */
  lemma CausesOf(g: Graph, n: string, s: Severity)
    requires n in g && Closed(g)
    ensures Causes(g, n, s) <==> Advisory(s) in g[n].via || exists b :: Edge(g, n, b) && Causes(g, b, s)
  {
    if Causes(g, n, s) {
      var m :| m in g && Reaches(g, n, m) && Advisory(s) in g[m].via;
      if m != n {
        var b := FirstStep(g, n, m);
        assert Causes(g, b, s);
      }
    }
    if Advisory(s) in g[n].via {
      ReachesSelf(g, n);
    }
    if b :| Edge(g, n, b) && Causes(g, b, s) {
      var m :| m in g && Reaches(g, b, m) && Advisory(s) in g[m].via;
      ReachesThrough(g, n, b, m);
    }
  }

  function MaxOf(causes: seq<nat>): (m: nat)
    requires causes != []
    ensures m in causes && forall i :: 0 <= i < |causes| ==> causes[i] <= m
  {
    if |causes| == 1 then causes[0]
    else
      var rest := MaxOf(causes[1..]);
      if causes[0] >= rest then causes[0] else rest
  }

  /** One evaluated cause per `via` entry: an advisory's rank or the highest rank below a package. */
  ghost predicate Evaluated(g: Graph, via: seq<Via>, causes: seq<nat>) {
    && |causes| == |via|
    && forall i :: 0 <= i < |via| ==>
         match via[i]
         case Advisory(s) => causes[i] == Rank(s)
         case Package(b) => b in g && HighestReachable(g, b, causes[i])
  }

  lemma HighestFromCauses(g: Graph, n: string, causes: seq<nat>)
    requires n in g && Closed(g) && g[n].via != [] && Evaluated(g, g[n].via, causes)
    ensures HighestReachable(g, n, MaxOf(causes))
  {
    var via, top := g[n].via, MaxOf(causes);
    forall s | Causes(g, n, s) ensures Rank(s) <= top {
      CausesOf(g, n, s);
      if Advisory(s) in via {
        var i :| 0 <= i < |via| && via[i] == Advisory(s);
        assert causes[i] <= top;
      } else {
        var b :| Edge(g, n, b) && Causes(g, b, s);
        var i :| 0 <= i < |via| && via[i] == Package(b);
        assert causes[i] <= top;
      }
    }
    var i :| 0 <= i < |causes| && causes[i] == top;
    match via[i] {
      case Advisory(s) => CausesOf(g, n, s);
      case Package(b) =>
        var s :| Causes(g, b, s) && Rank(s) == top;
        assert Edge(g, n, b);
        CausesOf(g, n, s);
    }
  }

  lemma HighestIsUnique(g: Graph, n: string, a: nat, b: nat)
    requires HighestReachable(g, n, a) && HighestReachable(g, n, b)
    ensures a == b
  {
  }

  /** A record without any cause has no highest severity, so no label can be right. */
  lemma NothingReachable(g: Graph, n: string, rank: nat)
    requires n in g && Closed(g) && g[n].via == []
    ensures !HighestReachable(g, n, rank)
  {
    forall s ensures !Causes(g, n, s) { CausesOf(g, n, s); }
  }

  // ----- acyclicity from a completion order -----

  ghost predicate CompletionOrder(g: Graph, order: seq<string>) {
    && (forall i :: 0 <= i < |order| ==> order[i] in g)
    && forall i, b :: 0 <= i < |order| && Edge(g, order[i], b) ==> b in order[..i]
  }

  ghost function FirstAt(order: seq<string>, n: string): (i: nat)
    requires n in order
    ensures i < |order| && order[i] == n && n !in order[..i]
  {
    if order[0] == n then 0 else 1 + FirstAt(order[1..], n)
  }

  lemma {:induction false} FirstIsLeast(order: seq<string>, n: string, j: nat)
    requires j < |order| && order[j] == n
    ensures FirstAt(order, n) <= j
  {
    if order[0] != n { FirstIsLeast(order[1..], n, j - 1); }
  }

  lemma EdgeDescends(g: Graph, order: seq<string>, a: string, b: string)
    requires CompletionOrder(g, order) && a in order && Edge(g, a, b)
    ensures b in order && FirstAt(order, b) < FirstAt(order, a)
  {
    var i := FirstAt(order, a);
    assert b in order[..i];
    var j :| 0 <= j < i && order[j] == b;
    FirstIsLeast(order, b, j);
  }

  lemma {:induction false} PathDescends(g: Graph, order: seq<string>, p: seq<string>)
    requires CompletionOrder(g, order) && IsPath(g, p) && p[0] in order
    ensures p[|p| - 1] in order
    ensures |p| >= 2 ==> FirstAt(order, p[|p| - 1]) < FirstAt(order, p[0])
  {
    if |p| >= 2 {
      EdgeDescends(g, order, p[0], p[1]);
      PathDescends(g, order, p[1..]);
    }
  }

  lemma CompleteOrderIsAcyclic(g: Graph, order: seq<string>)
    requires CompletionOrder(g, order) && forall n :: n in g ==> n in order
    ensures Acyclic(g) && Closed(g)
  {
    forall p ensures !Cycle(g, p) {
      if Cycle(g, p) {
        PathDescends(g, order, p);
        assert false;
      }
    }
    forall a, b | Edge(g, a, b) ensures b in g { EdgeDescends(g, order, a, b); }
  }

  /** A name met again on the stack closes a cycle. */
  lemma StackCycle(g: Graph, stack: seq<string>, name: string)
    requires IsPath(g, stack + [name]) && name in stack
    ensures !Acyclic(g)
  {
    var i :| 0 <= i < |stack| && stack[i] == name;
    var p := (stack + [name])[i..];
    assert Cycle(g, p);
  }

  // ----- the search -----

  datatype Error = CyclicChain | DanglingPackage | EmptyChain | SeverityDiffers

  datatype Result = Ok(rank: nat) | Err(error: Error)

  ghost function Names(stack: seq<string>): set<string> {
    set n | n in stack
  }

  class Audit {
    const g: Graph
    var resolved: map<string, nat>
    ghost var order: seq<string>

    constructor (g: Graph)
      ensures this.g == g && resolved == map[] && Sound()
    {
      this.g, resolved, order := g, map[], [];
    }

    /** Every memoised value is the true answer, recorded after everything it depends on. */
    ghost predicate Sound()
      reads this
    {
      && CompletionOrder(g, order)
      && (forall n :: n in resolved <==> n in order)
      && (Closed(g) ==> forall n :: n in resolved ==> HighestReachable(g, n, resolved[n]))
      && (forall n :: n in resolved ==> resolved[n] == Rank(g[n].severity))
    }

    ghost predicate Extends(before: map<string, nat>)
      reads this
    {
      forall n :: n in before ==> n in resolved && resolved[n] == before[n]
    }

    method Visit(name: string, stack: seq<string>) returns (r: Result)
      requires Sound() && IsPath(g, stack + [name])
      modifies this
      ensures r.Ok? ==> Sound() && Extends(old(resolved)) && name in resolved && resolved[name] == r.rank
      ensures r.Err? ==> !Acceptable(g)
      decreases g.Keys - Names(stack)
    {
      if name in resolved { return Ok(resolved[name]); }
      if name in stack {
        StackCycle(g, stack, name);
        return Err(CyclicChain);
      }
      assert (stack + [name])[|stack|] == name;
      if name !in g { return Err(DanglingPackage); }
      var via := g[name].via;
      var causes: seq<nat> := [];
      for i := 0 to |via|
        invariant Sound() && Extends(old(resolved)) && |causes| == i
        invariant forall j :: 0 <= j < i ==>
          match via[j]
          case Advisory(s) => causes[j] == Rank(s)
          case Package(b) => b in resolved && causes[j] == resolved[b]
      {
        match via[i] {
          case Package(b) =>
            assert Edge(g, name, b);
            if b !in g { return Err(DanglingPackage); }
            PathGrows(g, stack, name, b);
            assert name in g.Keys - Names(stack) && name !in g.Keys - Names(stack + [name]);
            var below := Visit(b, stack + [name]);
            if below.Err? { return below; }
            causes := causes + [below.rank];
          case Advisory(s) =>
            causes := causes + [Rank(s)];
        }
      }
      if causes == [] {
        if Closed(g) { NothingReachable(g, name, Rank(g[name].severity)); }
        return Err(EmptyChain);
      }
      var highest := MaxOf(causes);
      if Closed(g) { HighestFromCauses(g, name, causes); }
      if Rank(g[name].severity) != highest {
        if Acceptable(g) { HighestIsUnique(g, name, highest, Rank(g[name].severity)); }
        return Err(SeverityDiffers);
      }
      forall b | Edge(g, name, b) ensures b in order {
        var j :| 0 <= j < |via| && via[j] == Package(b);
      }
      assert (order + [name])[..|order|] == order;
      Append(g, order, name);
      resolved := resolved[name := highest];
      order := order + [name];
      r := Ok(highest);
    }

    /** `_validate_all_via_chains`: accepts exactly the acceptable graphs, on every input. */
    method ValidateAllChains() returns (accepted: bool)
      requires resolved == map[] && Sound()
      modifies this
      ensures accepted <==> Acceptable(g)
    {
      var pending := g.Keys;
      while pending != {}
        invariant Sound() && pending <= g.Keys
        invariant forall n :: n in g ==> n in pending || n in resolved
        decreases pending
      {
        var name :| name in pending;
        assert IsPath(g, [] + [name]);
        var r := Visit(name, []);
        if r.Err? { return false; }
        pending := pending - {name};
      }
      CompleteOrderIsAcyclic(g, order);
      accepted := true;
    }
  }

  lemma PathGrows(g: Graph, stack: seq<string>, name: string, b: string)
    requires IsPath(g, stack + [name]) && Edge(g, name, b) && b in g
    ensures IsPath(g, stack + [name] + [b])
  {
    var p := stack + [name];
    assert (p + [b])[..|p|] == p;
    forall i, j | 0 <= i < |p| && j == i + 1 ensures Edge(g, (p + [b])[i], (p + [b])[j]) {
      if i < |p| - 1 { assert Edge(g, p[i], p[j]); }
    }
  }

  lemma Append(g: Graph, order: seq<string>, name: string)
    requires CompletionOrder(g, order) && name in g && forall b :: Edge(g, name, b) ==> b in order
    ensures CompletionOrder(g, order + [name])
  {
    var longer := order + [name];
    forall i, b | 0 <= i < |longer| && Edge(g, longer[i], b) ensures b in longer[..i] {
      if i < |order| {
        assert longer[..i] == order[..i];
      } else {
        assert longer[..i] == order;
      }
    }
  }

  /** The gate's decision over one graph; it returns the search's verdict unchanged. */
  method Validate(g: Graph) returns (accepted: bool)
    ensures accepted <==> Acceptable(g)
  {
    var audit := new Audit(g);
    accepted := audit.ValidateAllChains();
  }

  /** Labels cannot hide anything: below a label threshold there is no advisory above it, anywhere. */
  lemma NoHiddenAdvisory(g: Graph, limit: nat, n: string, s: Severity)
    requires Acceptable(g) && (forall m :: m in g ==> Rank(g[m].severity) < limit)
    requires n in g && Advisory(s) in g[n].via
    ensures Rank(s) < limit
  {
    CausesOf(g, n, s);
    assert HighestReachable(g, n, Rank(g[n].severity));
  }
}
