/**
 The class-hierarchy index: for every class or interface, the set of
 concrete classes that can be a run-time receiver when that class or
 interface is the compile-time receiver type; and the simulation of the
 virtual dispatch the JVM performs at run time.
 */
module HierarchyIndex {
  import opened ProgramModel

  /** A class that can be instantiated: neither an interface nor abstract. */
  predicate NotAbstract(cd: ClassDecl): (r: bool)
    ensures !r <==> cd.isInterface || cd.isAbstract
  {
    !(cd.isInterface || cd.isAbstract)
  }

  function StartsWith(s: string, prefix: string): (r: bool)
    ensures r <==> prefix <= s
  {
    if prefix == [] then true
    else if s == [] then false
    else s[0] == prefix[0] && StartsWith(s[1..], prefix[1..])
  }

  /** Classes of the Java platform are recognised by their package prefix. */
  predicate NotLibrary(cd: ClassDecl): (r: bool)
    ensures !r <==> "java." <= cd.name || "javax." <= cd.name || "sun." <= cd.name
  {
    !(StartsWith(cd.name, "java.") || StartsWith(cd.name, "javax.") || StartsWith(cd.name, "sun."))
  }

  /** A method is library code when its declaring class is. */
  predicate NotLibraryMethod(p: Program, m: MethodRef): (r: bool)
    requires IsMethod(p, m)
    ensures var n := p.classes[m.cls].name;
      !r <==> "java." <= n || "javax." <= n || "sun." <= n
  {
    NotLibrary(p.classes[m.cls])
  }

  // ---------------------------------------------------------------
  // Possible receiver classes

  /** Concrete classes among the first `bound` classes from which `c` is reached upward. */
  ghost function DescendantsBelow(p: Program, c: ClassId, bound: nat): set<ClassId>
  {
    set d | 0 <= d < bound && d < |p.classes| && NotAbstract(p.classes[d]) && Reaches(p, d, c)
  }

  /** The concrete classes that are `c` or a direct or indirect subclass or implementor of `c`. */
  ghost function Descendants(p: Program, c: ClassId): set<ClassId>
  {
    DescendantsBelow(p, c, |p.classes|)
  }

  lemma DescendantsBelowStep(p: Program, c: ClassId, i: nat)
    requires i < |p.classes|
    ensures DescendantsBelow(p, c, i + 1) ==
      DescendantsBelow(p, c, i) + (if NotAbstract(p.classes[i]) && Reaches(p, i, c) then {i} else {})
  {
  }

  lemma ReachesInRange(p: Program, d: ClassId, c: ClassId)
    requires Reaches(p, d, c)
    ensures d < |p.classes| && c < |p.classes|
  {
  }

  /** Every concrete class is a possible receiver for its own type. */
  lemma ConcreteIsOwnReceiver(p: Program, c: ClassId)
    requires c < |p.classes| && NotAbstract(p.classes[c])
    ensures c in Descendants(p, c)
  {
    ReachesRefl(p, c);
  }

  /** Every possible receiver is a concrete class of the program from which `c` is reached. */
  lemma ReceiversConcrete(p: Program, c: ClassId, d: ClassId)
    requires d in Descendants(p, c)
    ensures d < |p.classes| && NotAbstract(p.classes[d]) && Reaches(p, d, c)
  {
  }

  /** Interfaces and abstract classes are never possible receivers, not even of their own type. */
  lemma AbstractNeverReceiver(p: Program, c: ClassId, d: ClassId)
    requires d < |p.classes| && (p.classes[d].isInterface || p.classes[d].isAbstract)
    ensures d !in Descendants(p, c)
  {
  }

  /** A receiver of a class is a receiver of each of its superclasses and interfaces. */
  lemma DescendantsAlongLink(p: Program, c: ClassId, s: ClassId)
    requires DirectSuper(p, c, s) && s < |p.classes|
    ensures Descendants(p, c) <= Descendants(p, s)
  {
    forall d | d in Descendants(p, c) ensures d in Descendants(p, s) {
      assert Reaches(p, d, c);
      ReachesRefl(p, s);
      ReachesPrepend(p, c, s, s);
      ReachesTrans(p, d, c, s);
    }
  }

  /** The receiver set of a type is the type itself when concrete, together with the
      receiver sets of its direct subclasses and implementors. */
  lemma DescendantsUnfold(p: Program, c: ClassId, d: ClassId)
    requires c < |p.classes|
    ensures d in Descendants(p, c) <==>
      (d == c && NotAbstract(p.classes[c]))
      || exists s :: DirectSuper(p, s, c) && d in Descendants(p, s)
  {
    if d in Descendants(p, c) && d != c {
      var s := ReachesLastStep(p, d, c);
      assert d in Descendants(p, s);
    }
    if exists s :: DirectSuper(p, s, c) && d in Descendants(p, s) {
      var s :| DirectSuper(p, s, c) && d in Descendants(p, s);
      DescendantsAlongLink(p, s, c);
    }
    if d == c && NotAbstract(p.classes[c]) {
      ConcreteIsOwnReceiver(p, c);
    }
  }

  // ---------------------------------------------------------------
  // Virtual dispatch

  /** The first method of `ms` with sub-signature `sig`. */
  function FindBySubSig(ms: seq<MethodDecl>, sig: string): (r: Option<nat>)
    ensures r.Some? ==>
      && r.value < |ms| && ms[r.value].subSig == sig
      && (forall k :: 0 <= k < r.value ==> ms[k].subSig != sig)
    ensures r.None? ==> forall k :: 0 <= k < |ms| ==> ms[k].subSig != sig
  {
    if ms == [] then None
    else if ms[0].subSig == sig then Some(0)
    else match FindBySubSig(ms[1..], sig)
      case None => None
      case Some(k) => Some(k + 1)
  }

  lemma FindBySubSigIsFirst(ms: seq<MethodDecl>, sig: string, j: nat)
    requires j < |ms| && ms[j].subSig == sig
    requires forall k :: 0 <= k < j ==> ms[k].subSig != sig
    ensures FindBySubSig(ms, sig) == Some(j)
  {
  }

  ghost predicate Declares(p: Program, c: ClassId, sig: string)
    requires c < |p.classes|
  {
    exists j :: 0 <= j < |p.classes[c].methods| && p.classes[c].methods[j].subSig == sig
  }

  /** The first method with sub-signature `sig` declared by a class of `chain`, searching
      the classes in order. */
  function FirstMatch(p: Program, chain: seq<ClassId>, sig: string): (r: Option<MethodRef>)
    requires forall i :: 0 <= i < |chain| ==> chain[i] < |p.classes|
    ensures r.None? <==> forall i :: 0 <= i < |chain| ==> !Declares(p, chain[i], sig)
    ensures r.Some? ==>
      && IsMethod(p, r.value) && MethodOf(p, r.value).subSig == sig
      && (exists i :: 0 <= i < |chain| && r.value.cls == chain[i]
           && (forall h :: 0 <= h < i ==> !Declares(p, chain[h], sig)))
  {
    if chain == [] then None
    else match FindBySubSig(p.classes[chain[0]].methods, sig)
      case Some(j) => Some(MethodRef(chain[0], j))
      case None =>
        var r := FirstMatch(p, chain[1..], sig);
        assert forall i :: 1 <= i < |chain| ==> chain[i] == chain[1..][i - 1];
        r
  }

  lemma FirstMatchNearest(p: Program, chain: seq<ClassId>, sig: string, i: nat)
    requires forall k :: 0 <= k < |chain| ==> chain[k] < |p.classes|
    requires i < |chain| && Declares(p, chain[i], sig)
    ensures FirstMatch(p, chain, sig).Some?
    ensures exists h :: (0 <= h <= i && FirstMatch(p, chain, sig).value.cls == chain[h]
      && forall g :: 0 <= g < h ==> !Declares(p, chain[g], sig))
  {
    var fm := FirstMatch(p, chain, sig);
    var h :| 0 <= h < |chain| && fm.value.cls == chain[h]
      && forall g :: 0 <= g < h ==> !Declares(p, chain[g], sig);
    assert h <= i;
  }

  /** The search along the superclass chain of `c` stops at the first method of `c`
      with the sub-signature. */
  lemma FirstMatchHit(p: Program, c: ClassId, sig: string, j: nat)
    requires WellFormed(p) && c < |p.classes|
    requires j < |p.classes[c].methods| && p.classes[c].methods[j].subSig == sig
    requires forall k :: 0 <= k < j ==> p.classes[c].methods[k].subSig != sig
    ensures FirstMatch(p, SuperChain(p, c), sig) == Some(MethodRef(c, j))
  {
    FindBySubSigIsFirst(p.classes[c].methods, sig, j);
    SuperChainUnfold(p, c);
  }

  /** A class that declares no method with the sub-signature passes the search on to its
      superclass, which is lower in the rank. */
  lemma FirstMatchSkip(p: Program, c: ClassId, sig: string)
    requires WellFormed(p) && c < |p.classes| && p.classes[c].superclass.Some?
    requires forall k :: 0 <= k < |p.classes[c].methods| ==> p.classes[c].methods[k].subSig != sig
    ensures p.classes[c].superclass.value < |p.classes|
    ensures TheRank(p)[p.classes[c].superclass.value] < TheRank(p)[c]
    ensures FirstMatch(p, SuperChain(p, c), sig) == FirstMatch(p, SuperChain(p, p.classes[c].superclass.value), sig)
  {
    SuperChainUnfold(p, c);
    assert RankedClass(p, TheRank(p), c);
    var chain := SuperChain(p, c);
    assert chain[1..] == SuperChain(p, p.classes[c].superclass.value);
  }

  /** At the root of the chain, a class without a matching method ends the search empty-handed. */
  lemma FirstMatchRoot(p: Program, c: ClassId, sig: string)
    requires WellFormed(p) && c < |p.classes| && p.classes[c].superclass.None?
    requires forall k :: 0 <= k < |p.classes[c].methods| ==> p.classes[c].methods[k].subSig != sig
    ensures FirstMatch(p, SuperChain(p, c), sig) == None
  {
    SuperChainUnfold(p, c);
    assert SuperChain(p, c)[1..] == [];
  }

  /** The method that runs when `t` is invoked on a receiver whose run-time class is `r`:
      the first match along the superclass chain of `r`, or `t` itself when nothing matches. */
  ghost function Dispatch(p: Program, t: MethodRef, r: ClassId): (m: MethodRef)
    requires WellFormed(p) && IsMethod(p, t) && r < |p.classes|
    ensures IsMethod(p, m) && MethodOf(p, m).subSig == MethodOf(p, t).subSig
  {
    match FirstMatch(p, SuperChain(p, r), MethodOf(p, t).subSig)
    case Some(m) => m
    case None => t
  }

  /** When some class on the superclass chain of `r` declares the sub-signature, dispatch
      picks the nearest one: no class before it on the chain declares it. */
  lemma DispatchNearest(p: Program, t: MethodRef, r: ClassId, i: nat)
    requires WellFormed(p) && IsMethod(p, t) && r < |p.classes|
    requires i < |SuperChain(p, r)| && Declares(p, SuperChain(p, r)[i], MethodOf(p, t).subSig)
    ensures exists h :: (0 <= h <= i && Dispatch(p, t, r).cls == SuperChain(p, r)[h]
      && (forall g :: 0 <= g < h ==> !Declares(p, SuperChain(p, r)[g], MethodOf(p, t).subSig)))
  {
    FirstMatchNearest(p, SuperChain(p, r), MethodOf(p, t).subSig, i);
  }

  /** When no class on the chain up to and including the root declares the sub-signature,
      dispatch falls back to the static target. */
  lemma DispatchFallback(p: Program, t: MethodRef, r: ClassId)
    requires WellFormed(p) && IsMethod(p, t) && r < |p.classes|
    requires forall i :: 0 <= i < |SuperChain(p, r)| ==> !Declares(p, SuperChain(p, r)[i], MethodOf(p, t).subSig)
    ensures Dispatch(p, t, r) == t
  {
  }

  /** A class's own declaration wins over inherited ones. */
  lemma DispatchOwnDeclaration(p: Program, t: MethodRef, r: ClassId, j: nat)
    requires WellFormed(p) && IsMethod(p, t) && r < |p.classes|
    requires j < |p.classes[r].methods| && p.classes[r].methods[j].subSig == MethodOf(p, t).subSig
    ensures Dispatch(p, t, r) == MethodRef(r, j)
  {
    var ms := p.classes[r].methods;
    var sig := MethodOf(p, t).subSig;
    var f := FindBySubSig(ms, sig);
    assert f.Some? && ms[f.value].subSig == sig;
    assert f.value == j by { assert UniqueSubSigs(p); }
    assert SuperChain(p, r)[0] == r;
  }

  /** Dispatching a method on its own declaring class yields the method itself. */
  lemma DispatchOnDeclaringClass(p: Program, t: MethodRef)
    requires WellFormed(p) && IsMethod(p, t)
    ensures Dispatch(p, t, t.cls) == t
  {
    DispatchOwnDeclaration(p, t, t.cls, t.index);
  }

  /** A class that does not declare the sub-signature inherits the dispatch of its superclass. */
  lemma DispatchInherited(p: Program, t: MethodRef, r: ClassId)
    requires WellFormed(p) && IsMethod(p, t) && r < |p.classes|
    requires p.classes[r].superclass.Some? && !Declares(p, r, MethodOf(p, t).subSig)
    ensures p.classes[r].superclass.value < |p.classes|
    ensures Dispatch(p, t, r) == Dispatch(p, t, p.classes[r].superclass.value)
  {
    SuperChainUnfold(p, r);
    var s := p.classes[r].superclass.value;
    var sig := MethodOf(p, t).subSig;
    var f := FindBySubSig(p.classes[r].methods, sig);
    assert SuperChain(p, r)[1..] == SuperChain(p, s);
  }

  // ---------------------------------------------------------------
  // The index object

  /** `k` is `supr` itself or lies above one of the first `i` interfaces of `supr`. */
  ghost predicate CoveredByInterfaces(p: Program, supr: ClassId, i: nat, k: ClassId)
    requires supr < |p.classes| && i <= |p.classes[supr].interfaces|
  {
    k == supr || exists j :: 0 <= j < i && Reaches(p, p.classes[supr].interfaces[j], k)
  }

  lemma CoveredStep(p: Program, supr: ClassId, i: nat, k: ClassId)
    requires supr < |p.classes| && i < |p.classes[supr].interfaces|
    ensures CoveredByInterfaces(p, supr, i + 1, k) <==>
      CoveredByInterfaces(p, supr, i, k) || Reaches(p, p.classes[supr].interfaces[i], k)
  {
  }

  /** What the traversal from `supr` visits is exactly what lies above `supr`. */
  lemma TraverseCovers(p: Program, supr: ClassId, k: ClassId)
    requires Closed(p) && supr < |p.classes|
    ensures var cd := p.classes[supr];
      Reaches(p, supr, k) <==>
        CoveredByInterfaces(p, supr, |cd.interfaces|, k)
        || (cd.superclass.Some? && Reaches(p, cd.superclass.value, k))
  {
    var cd := p.classes[supr];
    var ifs := cd.interfaces;
    assert ClassClosed(p, cd);
    if CoveredByInterfaces(p, supr, |ifs|, k) && k != supr {
      var j :| 0 <= j < |ifs| && Reaches(p, ifs[j], k);
      ReachesPrepend(p, supr, ifs[j], k);
    }
    if k == supr {
      ReachesRefl(p, supr);
    }
    if cd.superclass.Some? && Reaches(p, cd.superclass.value, k) {
      ReachesPrepend(p, supr, cd.superclass.value, k);
    }
    if Reaches(p, supr, k) && k != supr {
      var s := ReachesFirstStep(p, supr, k);
      if s in ifs {
        var j :| 0 <= j < |ifs| && ifs[j] == s;
        assert CoveredByInterfaces(p, supr, |ifs|, k);
      }
    }
  }

  class Hierarchy {
    /** For each class C of the program, the concrete classes that are C or a subclass
        or implementor of C. */
    var tbl: map<ClassId, set<ClassId>>

    constructor ()
      ensures tbl == map[]
    {
      tbl := map[];
    }

    ghost predicate Valid(p: Program)
      reads this
    {
      WellFormed(p)
      && (forall c :: c in tbl <==> 0 <= c < |p.classes|)
      && (forall c :: 0 <= c < |p.classes| ==> tbl[c] == Descendants(p, c))
    }

    /** All classes in the hierarchy. */
    function AllClasses(ghost p: Program): (r: set<ClassId>)
      reads this
      requires Valid(p)
      ensures r == ClassIds(p)
    {
      tbl.Keys
    }

    method Initialize(p: Program)
      requires WellFormed(p)
      modifies this
      ensures tbl.Keys == old(tbl).Keys + ClassIds(p)
      ensures forall c :: 0 <= c < |p.classes| ==> tbl[c] == Descendants(p, c)
      ensures forall k :: k in old(tbl) && k >= |p.classes| ==> tbl[k] == old(tbl)[k]
      ensures old(tbl).Keys <= ClassIds(p) ==> Valid(p)
    {
      var n := |p.classes|;
      var i := 0;
      while i < n
        invariant 0 <= i <= n
        invariant forall c :: 0 <= c < i ==> c in tbl && tbl[c] == {}
        invariant forall k :: k in old(tbl) && k >= i ==> k in tbl && tbl[k] == old(tbl)[k]
        invariant forall k :: k in tbl ==> k in old(tbl) || k < i
      {
        tbl := tbl[i := {}];
        i := i + 1;
      }
      assert forall k :: k in tbl <==> k in old(tbl) || 0 <= k < n;
      ghost var base := tbl;
      i := 0;
      while i < n
        invariant 0 <= i <= n
        invariant tbl.Keys == base.Keys
        invariant forall c :: 0 <= c < n ==> tbl[c] == DescendantsBelow(p, c, i)
        invariant forall k :: k in tbl && k >= n ==> tbl[k] == base[k]
      {
        ghost var before := tbl;
        if NotAbstract(p.classes[i]) {
          Traverse(p, i, i);
        }
        forall c | 0 <= c < n ensures tbl[c] == DescendantsBelow(p, c, i + 1) {
          DescendantsBelowStep(p, c, i);
        }
        forall k | k in tbl && k >= n ensures tbl[k] == base[k] {
          if Reaches(p, i, k) { ReachesInRange(p, i, k); }
        }
        i := i + 1;
      }
      assert forall k :: k in tbl <==> k in old(tbl) || 0 <= k < n;
    }

    /** Adds `sub` to the set of `supr` and of every class and interface above `supr`. */
    method Traverse(p: Program, sub: ClassId, supr: ClassId)
      requires WellFormed(p) && supr < |p.classes|
      requires forall c :: 0 <= c < |p.classes| ==> c in tbl
      modifies this
      ensures tbl.Keys == old(tbl).Keys
      ensures forall k :: k in tbl ==>
        tbl[k] == if Reaches(p, supr, k) then old(tbl)[k] + {sub} else old(tbl)[k]
      decreases TheRank(p)[supr]
    {
      tbl := tbl[supr := tbl[supr] + {sub}];
      var cd := p.classes[supr];
      assert ClassClosed(p, cd) && RankedClass(p, TheRank(p), supr);
      var i := 0;
      while i < |cd.interfaces|
        invariant 0 <= i <= |cd.interfaces|
        invariant tbl.Keys == old(tbl).Keys
        invariant forall k :: k in tbl ==>
          tbl[k] == if CoveredByInterfaces(p, supr, i, k) then old(tbl)[k] + {sub} else old(tbl)[k]
      {
        Traverse(p, sub, cd.interfaces[i]);
        forall k | k in tbl
          ensures tbl[k] == if CoveredByInterfaces(p, supr, i + 1, k) then old(tbl)[k] + {sub} else old(tbl)[k]
        {
          CoveredStep(p, supr, i, k);
        }
        i := i + 1;
      }
      if cd.superclass.Some? {
        Traverse(p, sub, cd.superclass.value);
      }
      forall k | k in tbl
        ensures tbl[k] == if Reaches(p, supr, k) then old(tbl)[k] + {sub} else old(tbl)[k]
      {
        TraverseCovers(p, supr, k);
      }
    }

    /** The concrete classes that can be the run-time class of a receiver whose
        compile-time type is `staticClass`. */
    function PossibleReceiverClasses(ghost p: Program, staticClass: ClassId): (r: set<ClassId>)
      reads this
      requires Valid(p) && staticClass < |p.classes|
      ensures forall d :: d in r <==> d in Descendants(p, staticClass)
    {
      tbl[staticClass]
    }

    /** Simulates the JVM's virtual dispatch: walks the superclass chain from
        `receiverClass`, looking for a method with the sub-signature of `staticTarget`. */
    method VirtualDispatch(p: Program, staticTarget: MethodRef, receiverClass: ClassId)
      returns (m: MethodRef)
      requires WellFormed(p) && IsMethod(p, staticTarget) && receiverClass < |p.classes|
      ensures m == Dispatch(p, staticTarget, receiverClass)
    {
      var sig := MethodOf(p, staticTarget).subSig;
      ghost var goal := FirstMatch(p, SuperChain(p, receiverClass), sig);
      var cla: ClassId := receiverClass;
      while p.classes[cla].superclass.Some?
        invariant cla < |p.classes|
        invariant FirstMatch(p, SuperChain(p, cla), sig) == goal
        decreases TheRank(p)[cla]
      {
        var methods := p.classes[cla].methods;
        for j := 0 to |methods|
          invariant forall k :: 0 <= k < j ==> methods[k].subSig != sig
        {
          if methods[j].subSig == sig {
            FirstMatchHit(p, cla, sig, j);
            return MethodRef(cla, j);
          }
        }
        FirstMatchSkip(p, cla, sig);
        cla := p.classes[cla].superclass.value;
      }
      var methods := p.classes[cla].methods;
      for j := 0 to |methods|
        invariant forall k :: 0 <= k < j ==> methods[k].subSig != sig
      {
        if methods[j].subSig == sig {
          FirstMatchHit(p, cla, sig, j);
          return MethodRef(cla, j);
        }
      }
      FirstMatchRoot(p, cla, sig);
      return staticTarget;
    }
  }
}
