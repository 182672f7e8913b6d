/**
 The read-only program model the analysis consumes: classes and interfaces
 with their superclass and interface links, the methods each declares, and
 the call sites in each method body.

 A class or interface is identified by its position in the program's class
 list (the order in which the class chain enumerates them); a method is
 identified by its declaring class and its position in that class's method
 list. These play the role of object identity of the class and method
 objects of the underlying bytecode framework.
 */
module ProgramModel {

  datatype Option<T> = None | Some(value: T)

  type ClassId = nat

  /** The invocation kinds of the intermediate representation. `DynamicInvoke`
      stands for every kind the analysis does not handle. */
  datatype InvokeKind = StaticInvoke | SpecialInvoke | VirtualInvoke | InterfaceInvoke | DynamicInvoke

  /** Compile-time type of a receiver expression: a class or interface
      reference, or anything else (an array or primitive type). */
  datatype ReceiverType = RefType(cls: ClassId) | NonRefType

  datatype MethodRef = MethodRef(cls: ClassId, index: nat)

  /** A statement of a method body, reduced to the call it contains, if any. */
  datatype Stmt =
    | NoInvoke
    | Invoke(kind: InvokeKind, target: MethodRef, receiver: ReceiverType)

  datatype MethodDecl = MethodDecl(
    name: string,
    subSig: string,
    isNative: bool,
    isAbstract: bool,
    body: seq<Stmt>)

  datatype ClassDecl = ClassDecl(
    name: string,
    isInterface: bool,
    isAbstract: bool,
    superclass: Option<ClassId>,
    interfaces: seq<ClassId>,
    methods: seq<MethodDecl>)

  datatype Program = Program(classes: seq<ClassDecl>)

  predicate IsClass(p: Program, c: ClassId)
  {
    c < |p.classes|
  }

  predicate IsMethod(p: Program, m: MethodRef)
  {
    m.cls < |p.classes| && m.index < |p.classes[m.cls].methods|
  }

  function MethodOf(p: Program, m: MethodRef): MethodDecl
    requires IsMethod(p, m)
  {
    p.classes[m.cls].methods[m.index]
  }

  ghost function ClassIds(p: Program): set<ClassId>
  {
    set c | 0 <= c < |p.classes| && IsClass(p, c)
  }

  ghost function AllMethods(p: Program): set<MethodRef>
  {
    set c, j | 0 <= c < |p.classes| && 0 <= j < |p.classes[c].methods| :: MethodRef(c, j)
  }

  lemma AllMethodsContains(p: Program, m: MethodRef)
    ensures m in AllMethods(p) <==> IsMethod(p, m)
  {
    if IsMethod(p, m) {
      assert m == MethodRef(m.cls, m.index);
    }
  }

  /** Every call target and every receiver class a call site names is part of the program. */
  predicate StmtClosed(p: Program, s: Stmt)
  {
    match s
    case NoInvoke => true
    case Invoke(_, t, r) => IsMethod(p, t) && (r.RefType? ==> IsClass(p, r.cls))
  }

  predicate BodyClosed(p: Program, body: seq<Stmt>)
  {
    forall i :: 0 <= i < |body| ==> StmtClosed(p, body[i])
  }

  /** The superclass and interfaces of the class are in the program. */
  predicate LinksClosed(p: Program, cd: ClassDecl)
  {
    (cd.superclass.Some? ==> IsClass(p, cd.superclass.value))
    && (forall i :: 0 <= i < |cd.interfaces| ==> IsClass(p, cd.interfaces[i]))
  }

  predicate ClassClosed(p: Program, cd: ClassDecl)
  {
    LinksClosed(p, cd)
    && (forall j :: 0 <= j < |cd.methods| ==> BodyClosed(p, cd.methods[j].body))
  }

  /** A closed hierarchy: nothing refers outside the program model. */
  predicate Closed(p: Program)
  {
    forall c :: 0 <= c < |p.classes| ==> ClassClosed(p, p.classes[c])
  }

  /** A class declares at most one method per sub-signature. */
  predicate UniqueSubSigs(p: Program)
  {
    forall c, j, k ::
      0 <= c < |p.classes| && 0 <= j < |p.classes[c].methods| && 0 <= k < |p.classes[c].methods|
      && p.classes[c].methods[j].subSig == p.classes[c].methods[k].subSig
      ==> j == k
  }

  /** `rank` strictly decreases along every superclass and interface link:
      a witness that the hierarchy is acyclic. */
  predicate RankedClass(p: Program, rank: seq<nat>, c: ClassId)
    requires Closed(p) && |rank| == |p.classes| && c < |p.classes|
  {
    var cd := p.classes[c];
    assert ClassClosed(p, cd);
    (cd.superclass.Some? ==> rank[cd.superclass.value] < rank[c])
    && (forall i :: 0 <= i < |cd.interfaces| ==> rank[cd.interfaces[i]] < rank[c])
  }

  predicate Ranked(p: Program, rank: seq<nat>)
  {
    Closed(p) && |rank| == |p.classes|
    && forall c :: 0 <= c < |p.classes| ==> RankedClass(p, rank, c)
  }

  ghost predicate WellFormed(p: Program)
  {
    Closed(p) && UniqueSubSigs(p) && exists rank :: Ranked(p, rank)
  }

  ghost function TheRank(p: Program): (rank: seq<nat>)
    requires WellFormed(p)
    ensures Ranked(p, rank)
  {
    var rank :| Ranked(p, rank); rank
  }

  // ---------------------------------------------------------------
  // Upward paths along superclass and interface links

  predicate DirectSuper(p: Program, c: ClassId, s: ClassId)
  {
    c < |p.classes| && (s in p.classes[c].interfaces || p.classes[c].superclass == Some(s))
  }

  ghost predicate IsUpPath(p: Program, path: seq<ClassId>)
  {
    |path| > 0
    && (forall i :: 0 <= i < |path| ==> path[i] < |p.classes|)
    && (forall i :: 0 <= i < |path| - 1 ==> DirectSuper(p, path[i], path[i + 1]))
  }

  /** `d` is `c`, or `c` is reachable from `d` by walking up superclass and interface links. */
  ghost predicate Reaches(p: Program, d: ClassId, c: ClassId)
  {
    exists path :: IsUpPath(p, path) && path[0] == d && path[|path| - 1] == c
  }

  lemma ReachesRefl(p: Program, c: ClassId)
    requires c < |p.classes|
    ensures Reaches(p, c, c)
  {
    assert IsUpPath(p, [c]);
  }

  lemma ReachesPrepend(p: Program, a: ClassId, s: ClassId, k: ClassId)
    requires DirectSuper(p, a, s) && Reaches(p, s, k)
    ensures Reaches(p, a, k)
  {
    var path :| IsUpPath(p, path) && path[0] == s && path[|path| - 1] == k;
    var path' := [a] + path;
    assert IsUpPath(p, path') by {
      forall i | 0 <= i < |path'| - 1 ensures DirectSuper(p, path'[i], path'[i + 1]) {
        if i > 0 { assert path'[i] == path[i - 1] && path'[i + 1] == path[i]; }
      }
    }
  }

  /** A non-trivial upward walk from `a` starts with a direct link. */
  lemma ReachesFirstStep(p: Program, a: ClassId, k: ClassId) returns (s: ClassId)
    requires Reaches(p, a, k) && a != k
    ensures DirectSuper(p, a, s) && Reaches(p, s, k)
  {
    var path :| IsUpPath(p, path) && path[0] == a && path[|path| - 1] == k;
    s := path[1];
    var tail := path[1..];
    assert IsUpPath(p, tail) by {
      forall i | 0 <= i < |tail| - 1 ensures DirectSuper(p, tail[i], tail[i + 1]) {
        assert tail[i] == path[i + 1] && tail[i + 1] == path[i + 2];
      }
    }
  }

  /** A non-trivial upward walk to `c` ends with a direct link. */
  lemma ReachesLastStep(p: Program, d: ClassId, c: ClassId) returns (s: ClassId)
    requires Reaches(p, d, c) && d != c
    ensures DirectSuper(p, s, c) && Reaches(p, d, s)
  {
    var path :| IsUpPath(p, path) && path[0] == d && path[|path| - 1] == c;
    var n := |path|;
    s := path[n - 2];
    var front := path[..n - 1];
    assert IsUpPath(p, front) by {
      forall i | 0 <= i < |front| - 1 ensures DirectSuper(p, front[i], front[i + 1]) {
        assert front[i] == path[i] && front[i + 1] == path[i + 1];
      }
    }
    assert front[|front| - 1] == s;
  }

  lemma {:induction false} ReachesTrans(p: Program, a: ClassId, b: ClassId, c: ClassId)
    requires Reaches(p, a, b) && Reaches(p, b, c)
    ensures Reaches(p, a, c)
  {
    var p1 :| IsUpPath(p, p1) && p1[0] == a && p1[|p1| - 1] == b;
    var p2 :| IsUpPath(p, p2) && p2[0] == b && p2[|p2| - 1] == c;
    var path := p1 + p2[1..];
    assert IsUpPath(p, path) by {
      forall i | 0 <= i < |path| - 1 ensures DirectSuper(p, path[i], path[i + 1]) {
        if i < |p1| - 1 {
          assert path[i] == p1[i] && path[i + 1] == p1[i + 1];
        } else {
          var k := i - (|p1| - 1);
          assert path[i] == p2[k] && path[i + 1] == p2[k + 1];
        }
      }
    }
    assert path[|path| - 1] == c;
  }

  /** The one-step unfolding of `Reaches` used by the traversal. */
  lemma ReachesUnfold(p: Program, a: ClassId, k: ClassId)
    requires a < |p.classes| && k < |p.classes|
    ensures Reaches(p, a, k) <==> a == k || exists s :: DirectSuper(p, a, s) && Reaches(p, s, k)
  {
    if a == k {
      ReachesRefl(p, a);
    } else if Reaches(p, a, k) {
      var s := ReachesFirstStep(p, a, k);
    } else {
      forall s | DirectSuper(p, a, s) && Reaches(p, s, k) ensures false {
        ReachesPrepend(p, a, s, k);
      }
    }
  }

  // ---------------------------------------------------------------
  // The superclass chain

  ghost function SuperChainFrom(p: Program, rank: seq<nat>, c: ClassId): (chain: seq<ClassId>)
    requires Ranked(p, rank) && c < |p.classes|
    ensures |chain| > 0 && chain[0] == c
    ensures forall i :: 0 <= i < |chain| ==> chain[i] < |p.classes|
    ensures forall i :: 0 <= i < |chain| - 1 ==> p.classes[chain[i]].superclass == Some(chain[i + 1])
    ensures p.classes[chain[|chain| - 1]].superclass.None?
    decreases rank[c]
  {
    assert RankedClass(p, rank, c) && ClassClosed(p, p.classes[c]);
    match p.classes[c].superclass
    case None => [c]
    case Some(s) => [c] + SuperChainFrom(p, rank, s)
  }

  /** `c`, its superclass, that class's superclass, ... up to the root.
      Interfaces are not on it. */
  ghost function SuperChain(p: Program, c: ClassId): seq<ClassId>
    requires WellFormed(p) && c < |p.classes|
  {
    SuperChainFrom(p, TheRank(p), c)
  }

  lemma SuperChainUnfold(p: Program, c: ClassId)
    requires WellFormed(p) && c < |p.classes|
    ensures p.classes[c].superclass.None? ==> SuperChain(p, c) == [c]
    ensures p.classes[c].superclass.Some? ==>
      p.classes[c].superclass.value < |p.classes|
      && SuperChain(p, c) == [c] + SuperChain(p, p.classes[c].superclass.value)
  {
    assert ClassClosed(p, p.classes[c]);
  }
}
