/**
 The reachability engine: a FIFO worklist fixed point that discovers every
 method reachable from `main` and from the static initializers, resolving
 virtual and interface calls through the class-hierarchy index.
 */
module Reachability {
  import opened ProgramModel
  import opened HierarchyIndex

  predicate IsConstructor(p: Program, m: MethodRef)
  {
    IsMethod(p, m) && MethodOf(p, m).name == "<init>"
  }

  predicate IsStaticInitializer(p: Program, m: MethodRef)
  {
    IsMethod(p, m) && MethodOf(p, m).name == "<clinit>"
  }

  /** Every method named `<clinit>` of every class of the program. */
  ghost function StaticInitializers(p: Program): (r: set<MethodRef>)
    ensures forall m :: m in r <==> IsStaticInitializer(p, m)
  {
    var r := set c, j | 0 <= c < |p.classes| && 0 <= j < |p.classes[c].methods|
                        && p.classes[c].methods[j].name == "<clinit>" :: MethodRef(c, j);
    assert forall m :: IsStaticInitializer(p, m) ==> m == MethodRef(m.cls, m.index);
    r
  }

  /** The static initializers of the classes before `c`. */
  ghost function StaticInitializersBelow(p: Program, c: ClassId): set<MethodRef>
  {
    set m | m in StaticInitializers(p) && m.cls < c
  }

  /** The methods named `<clinit>` among the first `j` methods of class `c`. */
  ghost function ClassInitializersBelow(p: Program, c: ClassId, j: nat): set<MethodRef>
    requires c < |p.classes|
  {
    set k | 0 <= k < j && k < |p.classes[c].methods| && p.classes[c].methods[k].name == "<clinit>"
      :: MethodRef(c, k)
  }

  /** The seeding scan over the methods of class `c` meets one method at a time. */
  lemma ClassInitializersStep(p: Program, c: ClassId, j: nat)
    requires c < |p.classes| && j < |p.classes[c].methods|
    ensures ClassInitializersBelow(p, c, 0) == {}
    ensures ClassInitializersBelow(p, c, j + 1) == ClassInitializersBelow(p, c, j)
      + (if IsStaticInitializer(p, MethodRef(c, j)) then {MethodRef(c, j)} else {})
  {
  }

  /** Once the scan is done with class `c`, it moves on to the next class. */
  lemma StaticInitializersNextClass(p: Program, c: ClassId)
    requires c < |p.classes|
    ensures StaticInitializersBelow(p, 0) == {}
    ensures StaticInitializersBelow(p, c + 1)
      == StaticInitializersBelow(p, c) + ClassInitializersBelow(p, c, |p.classes[c].methods|)
  {
    var A, B := StaticInitializersBelow(p, c + 1), StaticInitializersBelow(p, c) + ClassInitializersBelow(p, c, |p.classes[c].methods|);
    forall m | m in B ensures m in A {
      if m.cls == c { assert IsStaticInitializer(p, m); }
    }
  }

  lemma StaticInitializersAll(p: Program)
    ensures StaticInitializersBelow(p, |p.classes|) == StaticInitializers(p)
  {
  }

  /** The methods named `finalize` among the first `j` methods of class `c`. */
  ghost function FinalizersBelow(p: Program, c: ClassId, j: nat): set<MethodRef>
    requires c < |p.classes|
  {
    set k | 0 <= k < j && k < |p.classes[c].methods| && p.classes[c].methods[k].name == "finalize"
      :: MethodRef(c, k)
  }

  /** The methods of class `c` named `finalize`, whatever their signature. */
  ghost function Finalizers(p: Program, c: ClassId): set<MethodRef>
    requires c < |p.classes|
  {
    FinalizersBelow(p, c, |p.classes[c].methods|)
  }

  /** `S` together with the finalizers of the classes of the constructors in `S`. */
  ghost function WithFinalizers(p: Program, S: set<MethodRef>): set<MethodRef>
  {
    S + (set m, f | m in S && IsConstructor(p, m) && f in Finalizers(p, m.cls) :: f)
  }

  /** The finalizers among the first `j` methods of class `c` that are not in `R`, in
      declaration order: what the finalizer rule appends to the worklist. */
  ghost function PendingFinalizers(p: Program, c: ClassId, j: nat, R: set<MethodRef>): seq<MethodRef>
    requires c < |p.classes| && j <= |p.classes[c].methods|
  {
    if j == 0 then []
    else
      PendingFinalizers(p, c, j - 1, R)
      + (if p.classes[c].methods[j - 1].name == "finalize" && MethodRef(c, j - 1) !in R
         then [MethodRef(c, j - 1)] else [])
  }

  ghost predicate Distinct(w: seq<MethodRef>)
  {
    forall i, j :: 0 <= i < j < |w| ==> w[i] != w[j]
  }

  lemma {:induction false} PendingFinalizersFacts(p: Program, c: ClassId, j: nat, R: set<MethodRef>)
    requires c < |p.classes| && j <= |p.classes[c].methods|
    ensures Distinct(PendingFinalizers(p, c, j, R))
    ensures forall x :: x in PendingFinalizers(p, c, j, R) <==> x in FinalizersBelow(p, c, j) && x !in R
    ensures forall x :: x in PendingFinalizers(p, c, j, R) ==> x.cls == c && x.index < j
  {
    if j > 0 {
      PendingFinalizersFacts(p, c, j - 1, R);
      var ms := p.classes[c].methods;
      assert FinalizersBelow(p, c, j) ==
        FinalizersBelow(p, c, j - 1) + (if ms[j - 1].name == "finalize" then {MethodRef(c, j - 1)} else {});
    }
  }

  // ---------------------------------------------------------------
  // Call targets

  predicate IsVirtualCall(s: Stmt)
  {
    s.Invoke? && (s.kind == VirtualInvoke || s.kind == InterfaceInvoke) && s.receiver.RefType?
  }

  /** The run-time targets of `t` over the possible receiver classes `S`. */
  ghost function TargetsOf(p: Program, t: MethodRef, S: set<ClassId>): (r: set<MethodRef>)
    requires WellFormed(p) && IsMethod(p, t) && forall d :: d in S ==> d < |p.classes|
    ensures forall m :: m in r ==> IsMethod(p, m)
  {
    set d | d in S :: Dispatch(p, t, d)
  }

  lemma TargetsOfAdd(p: Program, t: MethodRef, S: set<ClassId>, c: ClassId)
    requires WellFormed(p) && IsMethod(p, t) && c < |p.classes| && forall d :: d in S ==> d < |p.classes|
    ensures TargetsOf(p, t, S + {c}) == TargetsOf(p, t, S) + {Dispatch(p, t, c)}
  {
  }

  /** Moving one class from the pending part `rest` of `all` to the done part. Stated apart
      so that the solver meets this set identity only where the loop needs it. */
  lemma MoveToDone(all: set<ClassId>, rest: set<ClassId>, c: ClassId)
    requires rest <= all && c in rest
    ensures all - (rest - {c}) == (all - rest) + {c}
  {
  }

  /** With nothing pending, everything is done. */
  lemma NothingPending(all: set<ClassId>, rest: set<ClassId>)
    requires rest == {}
    ensures all - rest == all
  {
  }

  /** Stated apart for the same reason as `MoveToDone`. */
  lemma CardAddOne(A: set<MethodRef>, x: MethodRef)
    ensures |A + {x}| <= |A| + 1
  {
    if x in A {
      assert A + {x} == A;
    }
  }

  /** Distinct receiver classes may share an inherited target, never the other way around. */
  lemma {:induction false} TargetsOfBound(p: Program, t: MethodRef, S: set<ClassId>)
    requires WellFormed(p) && IsMethod(p, t) && forall d :: d in S ==> d < |p.classes|
    ensures |TargetsOf(p, t, S)| <= |S|
    decreases S
  {
    if S != {} {
      var c :| c in S;
      var rest := S - {c};
      assert rest + {c} == S;
      TargetsOfBound(p, t, rest);
      TargetsOfAdd(p, t, rest, c);
      CardAddOne(TargetsOf(p, t, rest), Dispatch(p, t, c));
    }
  }

  /** The call-graph edges of one statement. */
  ghost function StmtTargets(p: Program, s: Stmt): (r: set<MethodRef>)
    requires WellFormed(p) && StmtClosed(p, s)
    ensures forall m :: m in r ==> IsMethod(p, m)
  {
    match s
    case NoInvoke => {}
    case Invoke(kind, t, recv) =>
      if kind == StaticInvoke || kind == SpecialInvoke then {t}
      else if (kind == VirtualInvoke || kind == InterfaceInvoke) && recv.RefType? then
        TargetsOf(p, t, Descendants(p, recv.cls))
      else {}
  }

  ghost function BodyTargets(p: Program, body: seq<Stmt>): (r: set<MethodRef>)
    requires WellFormed(p) && BodyClosed(p, body)
    ensures forall m :: m in r ==> IsMethod(p, m)
  {
    if body == [] then {}
    else
      assert BodyClosed(p, body[..|body| - 1]);
      BodyTargets(p, body[..|body| - 1]) + StmtTargets(p, body[|body| - 1])
  }

  lemma MethodBodyClosed(p: Program, m: MethodRef)
    requires Closed(p) && IsMethod(p, m)
    ensures BodyClosed(p, MethodOf(p, m).body)
  {
    assert ClassClosed(p, p.classes[m.cls]);
  }

  /** The edges of a body prefix grow one statement at a time. */
  lemma BodyTargetsSnoc(p: Program, body: seq<Stmt>, i: nat)
    requires WellFormed(p) && BodyClosed(p, body) && i <= |body|
    ensures BodyClosed(p, body[..i])
    ensures i == |body| ==> BodyTargets(p, body[..i]) == BodyTargets(p, body)
    ensures i < |body| ==>
      && StmtClosed(p, body[i])
      && BodyTargets(p, body[..i + 1]) == BodyTargets(p, body[..i]) + StmtTargets(p, body[i])
      && (!body[i].Invoke? ==> StmtTargets(p, body[i]) == {})
  {
    if i == |body| {
      assert body[..i] == body;
    } else {
      assert body[..i + 1][..i] == body[..i] && body[..i + 1][i] == body[i];
      assert BodyClosed(p, body[..i + 1]);
    }
  }

  /** Each statement's edges are among its body's edges. */
  lemma {:induction false} BodyTargetsContains(p: Program, body: seq<Stmt>, i: nat)
    requires WellFormed(p) && BodyClosed(p, body) && i < |body|
    ensures StmtClosed(p, body[i]) && StmtTargets(p, body[i]) <= BodyTargets(p, body)
    decreases |body|
  {
    var front := body[..|body| - 1];
    assert BodyClosed(p, front);
    if i < |body| - 1 {
      assert front[i] == body[i];
      BodyTargetsContains(p, front, i);
    }
  }

  /** The call-graph edges out of method `m`; native and abstract methods have none. */
  ghost function CallTargets(p: Program, m: MethodRef): (r: set<MethodRef>)
    requires WellFormed(p) && IsMethod(p, m)
    ensures forall t :: t in r ==> IsMethod(p, t)
  {
    var md := MethodOf(p, m);
    if md.isNative || md.isAbstract then {}
    else
      assert ClassClosed(p, p.classes[m.cls]);
      BodyTargets(p, md.body)
  }

  // ---------------------------------------------------------------
  // What one call of addToWorklist does, on values

  /** What scheduling `m` appends to the worklist when `R` is the reachable set:
      nothing when `m` is already reachable, else `m`, followed, for a constructor,
      by the not yet reachable finalizers of its class in declaration order. */
  ghost function NewWork(p: Program, R: set<MethodRef>, m: MethodRef): seq<MethodRef>
    requires IsMethod(p, m)
  {
    if m in R then []
    else [m] + (if IsConstructor(p, m) then PendingFinalizers(p, m.cls, |p.classes[m.cls].methods|, R) else [])
  }

  /** What scheduling `m` adds to the reachable set `R`. */
  ghost function NewReach(p: Program, R: set<MethodRef>, m: MethodRef): set<MethodRef>
    requires IsMethod(p, m)
  {
    if m in R then {}
    else {m} + (if IsConstructor(p, m) then Finalizers(p, m.cls) else {})
  }

  /** The bookkeeping the worklist keeps: it holds reachable methods, each once. */
  ghost predicate WorkState(p: Program, W: seq<MethodRef>, R: set<MethodRef>)
  {
    (forall m :: m in R ==> IsMethod(p, m))
    && Distinct(W)
    && (forall i :: 0 <= i < |W| ==> W[i] in R)
  }

  // ---------------------------------------------------------------
  // Invariants of the worklist and the reachable set

  /** Every constructor in `R` brings the finalizers of its class with it. */
  ghost predicate FinalizerClosed(p: Program, R: set<MethodRef>)
  {
    forall m :: m in R && IsConstructor(p, m) ==> Finalizers(p, m.cls) <= R
  }

  /** Every method of `R` that is neither on the worklist `W` nor in `except` has had its
      call targets added to `R`. */
  ghost predicate ProcessedAll(p: Program, W: seq<MethodRef>, R: set<MethodRef>, except: set<MethodRef>)
    requires WellFormed(p)
  {
    forall m :: m in R && IsMethod(p, m) && m !in W && m !in except ==> CallTargets(p, m) <= R
  }

  /** Every call target of every method in `R` is in `R`. */
  ghost predicate CallClosed(p: Program, R: set<MethodRef>)
    requires WellFormed(p)
  {
    forall m :: m in R && IsMethod(p, m) ==> CallTargets(p, m) <= R
  }

  /** `W1` extends `W0` at its end with exactly the methods that `R1` adds to `R0`. */
  ghost predicate Grew(W0: seq<MethodRef>, R0: set<MethodRef>, W1: seq<MethodRef>, R1: set<MethodRef>)
  {
    |W0| <= |W1| && W1[..|W0|] == W0 && R0 <= R1
    && forall x :: x in W1[|W0|..] <==> x in R1 && x !in R0
  }

  /** Going from `(W0, R0)` to `(W1, R1)` discovered exactly the methods `T`, closed under
      the finalizer rule, and scheduled each newly reachable one. */
  ghost predicate Discovered(p: Program, W0: seq<MethodRef>, R0: set<MethodRef>,
                             W1: seq<MethodRef>, R1: set<MethodRef>, T: set<MethodRef>)
  {
    Grew(W0, R0, W1, R1) && R1 == R0 + WithFinalizers(p, T)
  }

  lemma GrewAppend(W0: seq<MethodRef>, R0: set<MethodRef>, S: seq<MethodRef>, A: set<MethodRef>)
    requires forall x :: x in S <==> x in A && x !in R0
    ensures Grew(W0, R0, W0 + S, R0 + A)
  {
    assert (W0 + S)[|W0|..] == S;
    assert (W0 + S)[..|W0|] == W0;
  }

  lemma GrewTrans(W0: seq<MethodRef>, R0: set<MethodRef>, W1: seq<MethodRef>, R1: set<MethodRef>,
                  W2: seq<MethodRef>, R2: set<MethodRef>)
    requires Grew(W0, R0, W1, R1) && Grew(W1, R1, W2, R2)
    ensures Grew(W0, R0, W2, R2)
  {
    assert W2[..|W0|] == W2[..|W1|][..|W0|];
    assert W2[|W0|..] == W1[|W0|..] + W2[|W1|..];
  }

  /** Stated apart for the same reason as `MoveToDone`. */
  lemma FirstInSeq(s: seq<MethodRef>)
    ensures |s| > 0 ==> s[0] in s
  {
  }

  /** When nothing became reachable, nothing was appended. */
  lemma GrewNothing(W0: seq<MethodRef>, R0: set<MethodRef>, W1: seq<MethodRef>, R1: set<MethodRef>)
    requires Grew(W0, R0, W1, R1) && R1 == R0
    ensures W1 == W0
  {
    FirstInSeq(W1[|W0|..]);
    assert |W1[|W0|..]| == 0;
    assert W1 == W1[..|W0|];
  }

  /** What a grown worklist and reachable set keep of the old ones. */
  lemma GrewKeeps(W0: seq<MethodRef>, R0: set<MethodRef>, W1: seq<MethodRef>, R1: set<MethodRef>)
    requires Grew(W0, R0, W1, R1)
    ensures forall x :: x in W0 ==> x in W1
    ensures forall x :: x in R1 && x !in W1 ==> x in R0
  {
    forall x | x in W0 ensures x in W1 {
      var i :| 0 <= i < |W0| && W0[i] == x;
      assert W1[i] == x;
    }
    forall x | x in W1[|W0|..] ensures x in W1 {
      var i :| 0 <= i < |W1| - |W0| && W1[|W0|..][i] == x;
      assert W1[|W0| + i] == x;
    }
  }

  /** Growing the worklist and the reachable set together keeps processed methods processed. */
  lemma ProcessedGrew(p: Program, W0: seq<MethodRef>, R0: set<MethodRef>, W1: seq<MethodRef>,
                      R1: set<MethodRef>, except: set<MethodRef>)
    requires WellFormed(p) && ProcessedAll(p, W0, R0, except) && Grew(W0, R0, W1, R1)
    ensures ProcessedAll(p, W1, R1, except)
  {
    GrewKeeps(W0, R0, W1, R1);
  }

  lemma WithFinalizersUnion(p: Program, A: set<MethodRef>, B: set<MethodRef>)
    ensures WithFinalizers(p, A + B) == WithFinalizers(p, A) + WithFinalizers(p, B)
  {
  }

  lemma WithFinalizersSingle(p: Program, m: MethodRef)
    ensures WithFinalizers(p, {m}) == {m} + (if IsConstructor(p, m) then Finalizers(p, m.cls) else {})
  {
  }

  /** Under the finalizer rule, adding a set of methods that is already there changes nothing. */
  lemma WithFinalizersAbsorbed(p: Program, S: set<MethodRef>, R: set<MethodRef>)
    requires FinalizerClosed(p, R) && S <= R
    ensures R + WithFinalizers(p, S) == R
  {
  }

  /** Making a new method reachable and appending it keeps the bookkeeping. */
  lemma WorkStateAppend(p: Program, W: seq<MethodRef>, R: set<MethodRef>, m: MethodRef)
    requires WorkState(p, W, R) && IsMethod(p, m) && m !in R
    ensures WorkState(p, W + [m], R + {m})
  {
    var W' := W + [m];
    forall i, j | 0 <= i < j < |W'| ensures W'[i] != W'[j] {
      if j < |W| { assert W'[i] == W[i] && W'[j] == W[j]; }
      else { assert W'[i] == W[i] && W[i] in R; }
    }
  }

  /** Stated apart for the same reason as `MoveToDone`. */
  lemma AppendAssoc(a: seq<MethodRef>, b: seq<MethodRef>, c: seq<MethodRef>)
    ensures a + (b + c) == (a + b) + c
  {
  }

  lemma DistinctAppend(A: seq<MethodRef>, B: seq<MethodRef>)
    requires Distinct(A) && Distinct(B) && forall x :: x in A ==> x !in B
    ensures Distinct(A + B)
  {
    var C := A + B;
    forall i, j | 0 <= i < j < |C| ensures C[i] != C[j] {
      if j < |A| {
        assert C[i] == A[i] && C[j] == A[j];
      } else if i >= |A| {
        assert C[i] == B[i - |A|] && C[j] == B[j - |A|];
      } else {
        assert C[i] == A[i] && A[i] in A && C[j] == B[j - |A|];
      }
    }
  }

  lemma NewWorkUnfold(p: Program, R: set<MethodRef>, m: MethodRef)
    requires IsMethod(p, m) && m !in R
    ensures var ctor := MethodOf(p, m).name == "<init>";
      && NewWork(p, R, m)
         == [m] + (if ctor then PendingFinalizers(p, m.cls, |p.classes[m.cls].methods|, R) else [])
      && NewReach(p, R, m) == {m} + (if ctor then Finalizers(p, m.cls) else {})
  {
  }

  /** One step of the finalizer rule's scan over the methods of a constructor's class: the
      `j`-th method is scheduled exactly when it is a finalize method not reachable before. */
  lemma FinalizerLoopStep(p: Program, m: MethodRef, j: nat, R0: set<MethodRef>, R1: set<MethodRef>)
    requires IsMethod(p, m) && MethodOf(p, m).name == "<init>" && j < |p.classes[m.cls].methods|
    requires R1 == R0 + {m}
    ensures p.classes[m.cls].methods[j].name != "finalize" ==>
      && PendingFinalizers(p, m.cls, j + 1, R0) == PendingFinalizers(p, m.cls, j, R0)
      && FinalizersBelow(p, m.cls, j + 1) == FinalizersBelow(p, m.cls, j)
    ensures p.classes[m.cls].methods[j].name == "finalize" ==>
      var f, R := MethodRef(m.cls, j), R1 + FinalizersBelow(p, m.cls, j);
      && IsMethod(p, f) && !IsConstructor(p, f)
      && PendingFinalizers(p, m.cls, j + 1, R0) == PendingFinalizers(p, m.cls, j, R0) + NewWork(p, R, f)
      && R + NewReach(p, R, f) == R1 + FinalizersBelow(p, m.cls, j + 1)
  {
    var c, f := m.cls, MethodRef(m.cls, j);
    var ms := p.classes[c].methods;
    assert FinalizersBelow(p, c, j + 1) == FinalizersBelow(p, c, j) + (if ms[j].name == "finalize" then {f} else {});
    assert f !in FinalizersBelow(p, c, j);
    if ms[j].name == "finalize" {
      assert f != m && !IsConstructor(p, f);
    }
  }

  /** Scheduling `m` appends to the worklist exactly what it adds to the reachable set, keeps
      the bookkeeping, and, under the finalizer rule, closes the new set and adds exactly
      `m` with the finalizers it brings. */
  lemma {:induction false} NewWorkFacts(p: Program, W: seq<MethodRef>, R: set<MethodRef>, m: MethodRef)
    requires WorkState(p, W, R) && IsMethod(p, m)
    ensures WorkState(p, W + NewWork(p, R, m), R + NewReach(p, R, m))
    ensures Grew(W, R, W + NewWork(p, R, m), R + NewReach(p, R, m))
    ensures FinalizerClosed(p, R) ==>
      && FinalizerClosed(p, R + NewReach(p, R, m))
      && Discovered(p, W, R, W + NewWork(p, R, m), R + NewReach(p, R, m), {m})
  {
    var N, A := NewWork(p, R, m), NewReach(p, R, m);
    WithFinalizersSingle(p, m);
    if m in R {
      assert W + N == W;
      GrewAppend(W, R, N, A);
      return;
    }
    var pend: seq<MethodRef> := [];
    if IsConstructor(p, m) {
      pend := PendingFinalizers(p, m.cls, |p.classes[m.cls].methods|, R);
      PendingFinalizersFacts(p, m.cls, |p.classes[m.cls].methods|, R);
    }
    assert N == [m] + pend;
    GrewAppend(W, R, N, A);
    WorkStateAppend(p, W, R, m);
    AppendAssoc(W, [m], pend);
    DistinctAppend(W + [m], pend);
  }

  /** One more scheduled method extends a discovery by that method. */
  lemma DiscoveredStep(p: Program, W0: seq<MethodRef>, R0: set<MethodRef>, W1: seq<MethodRef>,
                       R1: set<MethodRef>, T: set<MethodRef>, t: MethodRef)
    requires WorkState(p, W1, R1) && FinalizerClosed(p, R1) && IsMethod(p, t)
    requires Discovered(p, W0, R0, W1, R1, T)
    ensures Discovered(p, W0, R0, W1 + NewWork(p, R1, t), R1 + NewReach(p, R1, t), T + {t})
  {
    NewWorkFacts(p, W1, R1, t);
    GrewTrans(W0, R0, W1, R1, W1 + NewWork(p, R1, t), R1 + NewReach(p, R1, t));
    WithFinalizersUnion(p, T, {t});
  }

  /** Two discoveries in sequence discover the union. */
  lemma DiscoveredTrans(p: Program, W0: seq<MethodRef>, R0: set<MethodRef>, W1: seq<MethodRef>,
                        R1: set<MethodRef>, T1: set<MethodRef>, W2: seq<MethodRef>, R2: set<MethodRef>,
                        T2: set<MethodRef>)
    requires Discovered(p, W0, R0, W1, R1, T1) && Discovered(p, W1, R1, W2, R2, T2)
    ensures Discovered(p, W0, R0, W2, R2, T1 + T2)
  {
    GrewTrans(W0, R0, W1, R1, W2, R2);
    WithFinalizersUnion(p, T1, T2);
  }

  lemma DiscoveredNothing(p: Program, W: seq<MethodRef>, R: set<MethodRef>)
    ensures Discovered(p, W, R, W, R, {})
  {
    assert W[|W|..] == [];
    assert W[..|W|] == W;
  }

  /** Scheduling a method keeps the worklist settled: the new methods are all on it. */
  lemma SettledSchedule(p: Program, W: seq<MethodRef>, R: set<MethodRef>, m: MethodRef)
    requires WellFormed(p) && WorkState(p, W, R) && IsMethod(p, m)
    requires FinalizerClosed(p, R) && ProcessedAll(p, W, R, {})
    ensures FinalizerClosed(p, R + NewReach(p, R, m))
    ensures ProcessedAll(p, W + NewWork(p, R, m), R + NewReach(p, R, m), {})
  {
    NewWorkFacts(p, W, R, m);
    ProcessedGrew(p, W, R, W + NewWork(p, R, m), R + NewReach(p, R, m), {});
  }

  /** Processing the head of a settled worklist and scheduling its call targets leaves the
      worklist settled, and either makes a new method reachable or shortens the worklist. */
  lemma {:induction false} SettledPop(p: Program, W0: seq<MethodRef>, R0: set<MethodRef>,
                                      W1: seq<MethodRef>, R1: set<MethodRef>)
    requires WellFormed(p) && |W0| > 0 && IsMethod(p, W0[0])
    requires FinalizerClosed(p, R0) && ProcessedAll(p, W0, R0, {})
    requires Discovered(p, W0[1..], R0, W1, R1, CallTargets(p, W0[0]))
    ensures ProcessedAll(p, W1, R1, {})
    ensures R1 == R0 ==> W1 == W0[1..]
  {
    var m := W0[0];
    var W := W0[1..];
    GrewKeeps(W, R0, W1, R1);
    forall x | x in R1 && IsMethod(p, x) && x !in W1 ensures CallTargets(p, x) <= R1 {
      if x != m {
        assert x !in W;
        forall i | 0 <= i < |W0| ensures W0[i] != x {
          if i > 0 { assert W0[i] == W[i - 1]; }
        }
        assert x !in W0;
      }
    }
    if R1 == R0 {
      GrewNothing(W, R0, W1, R1);
    }
  }

  /** Discovering a method leaves fewer methods of the program undiscovered. */
  lemma UnreachedShrinks(p: Program, R0: set<MethodRef>, R1: set<MethodRef>)
    requires R0 <= R1 && R0 != R1 && forall m :: m in R1 ==> IsMethod(p, m)
    ensures AllMethods(p) - R1 < AllMethods(p) - R0
  {
    var x :| x in R1 && x !in R0;
    AllMethodsContains(p, x);
    assert x in (AllMethods(p) - R0) - (AllMethods(p) - R1);
  }

  /** At a fixed point, every call site of a reachable method that has a body has its
      targets reachable: the static target of a static or special call, and the dispatch
      target on every possible receiver class of a virtual or interface call. */
  lemma CallSiteClosure(p: Program, R: set<MethodRef>, m: MethodRef, i: nat)
    requires WellFormed(p) && CallClosed(p, R) && m in R && IsMethod(p, m)
    requires !MethodOf(p, m).isNative && !MethodOf(p, m).isAbstract && i < |MethodOf(p, m).body|
    ensures StmtClosed(p, MethodOf(p, m).body[i])
    ensures var s := MethodOf(p, m).body[i];
      && (s.Invoke? && (s.kind == StaticInvoke || s.kind == SpecialInvoke) ==> s.target in R)
      && (IsVirtualCall(s) ==>
            forall d :: d in Descendants(p, s.receiver.cls) ==> d < |p.classes| && Dispatch(p, s.target, d) in R)
  {
    var body := MethodOf(p, m).body;
    MethodBodyClosed(p, m);
    BodyTargetsContains(p, body, i);
    var s := body[i];
    if IsVirtualCall(s) {
      forall d | d in Descendants(p, s.receiver.cls)
        ensures d < |p.classes| && Dispatch(p, s.target, d) in R
      {
        assert Dispatch(p, s.target, d) in TargetsOf(p, s.target, Descendants(p, s.receiver.cls));
      }
    }
  }

  /** Static initializers are not constructors, so the finalizer rule adds nothing to them. */
  lemma WithFinalizersStaticInitializers(p: Program)
    ensures WithFinalizers(p, StaticInitializers(p)) == StaticInitializers(p)
  {
  }

  // ---------------------------------------------------------------
  // The reachable set is the least closed set

  /** `S` contains `base` and every static initializer, and is closed under the finalizer
      rule and under call targets. */
  ghost predicate ClosedAbove(p: Program, S: set<MethodRef>, base: set<MethodRef>)
    requires WellFormed(p)
  {
    base <= S && StaticInitializers(p) <= S && FinalizerClosed(p, S) && CallClosed(p, S)
  }

  /** `R` lies inside every set closed above `base`: whatever is in `R` is forced. */
  ghost predicate BelowAllClosed(p: Program, R: set<MethodRef>, base: set<MethodRef>)
    requires WellFormed(p)
  {
    forall S :: ClosedAbove(p, S, base) ==> R <= S
  }

  /** The least set closed above `base`. */
  ghost predicate LeastClosedAbove(p: Program, R: set<MethodRef>, base: set<MethodRef>)
    requires WellFormed(p)
  {
    ClosedAbove(p, R, base) && BelowAllClosed(p, R, base)
  }

  /** There is only one least closed set above a base: the result of the analysis does not
      depend on the order in which it discovers methods. */
  lemma LeastClosedAboveUnique(p: Program, R1: set<MethodRef>, R2: set<MethodRef>, base: set<MethodRef>)
    requires WellFormed(p) && LeastClosedAbove(p, R1, base) && LeastClosedAbove(p, R2, base)
    ensures R1 == R2
  {
    assert R1 <= R2 && R2 <= R1;
  }

  /** Discovering methods that every closed set contains, with their finalizers, keeps the
      reachable set inside every closed set. */
  lemma BelowAllClosedStep(p: Program, base: set<MethodRef>, R0: set<MethodRef>, T: set<MethodRef>,
                           R1: set<MethodRef>)
    requires WellFormed(p) && BelowAllClosed(p, R0, base)
    requires forall S :: ClosedAbove(p, S, base) ==> T <= S
    requires R1 == R0 + WithFinalizers(p, T)
    ensures BelowAllClosed(p, R1, base)
  {
    forall S | ClosedAbove(p, S, base) ensures R1 <= S {
      WithFinalizersAbsorbed(p, T, S);
    }
  }

  /** Processing a method already inside every closed set discovers only methods inside
      every closed set. */
  lemma {:induction false} BelowAllClosedProcess(p: Program, base: set<MethodRef>, R0: set<MethodRef>,
                                                 m: MethodRef, R1: set<MethodRef>)
    requires WellFormed(p) && BelowAllClosed(p, R0, base) && m in R0 && IsMethod(p, m)
    requires R1 == R0 + WithFinalizers(p, CallTargets(p, m))
    ensures BelowAllClosed(p, R1, base)
  {
    forall S | ClosedAbove(p, S, base) ensures CallTargets(p, m) <= S {
      assert m in S;
    }
    BelowAllClosedStep(p, base, R0, CallTargets(p, m), R1);
  }

  /** Seeding the entry method keeps the worklist settled, and what it makes reachable is
      inside every set closed above the old reachable set and the entry method. */
  lemma SeedEntryFacts(p: Program, W: seq<MethodRef>, R: set<MethodRef>, m: MethodRef)
    requires WellFormed(p) && WorkState(p, W, R) && IsMethod(p, m)
    requires FinalizerClosed(p, R) && ProcessedAll(p, W, R, {})
    ensures FinalizerClosed(p, R + NewReach(p, R, m))
    ensures ProcessedAll(p, W + NewWork(p, R, m), R + NewReach(p, R, m), {})
    ensures BelowAllClosed(p, R + NewReach(p, R, m), R + {m})
  {
    SettledSchedule(p, W, R, m);
    NewWorkFacts(p, W, R, m);
    BelowAllClosedStep(p, R + {m}, R, {m}, R + NewReach(p, R, m));
  }

  /** One round of the main loop, on values: `W0[0]` was popped and processed into
      `(W1, R1)`. The worklist stays settled, the reachable set stays inside every closed
      set, and either a new method became reachable or the worklist lost its head. */
  lemma MainLoopStep(p: Program, base: set<MethodRef>, W0: seq<MethodRef>, R0: set<MethodRef>,
                     W1: seq<MethodRef>, R1: set<MethodRef>)
    requires WellFormed(p) && |W0| > 0 && WorkState(p, W0, R0) && WorkState(p, W1, R1)
    requires FinalizerClosed(p, R0) && ProcessedAll(p, W0, R0, {}) && BelowAllClosed(p, R0, base)
    requires Discovered(p, W0[1..], R0, W1, R1, CallTargets(p, W0[0]))
    ensures ProcessedAll(p, W1, R1, {}) && BelowAllClosed(p, R1, base) && R0 <= R1
    ensures R1 == R0 ==> W1 == W0[1..]
    ensures R1 != R0 ==> AllMethods(p) - R1 < AllMethods(p) - R0
  {
    BelowAllClosedProcess(p, base, R0, W0[0], R1);
    SettledPop(p, W0, R0, W1, R1);
    if R1 != R0 {
      UnreachedShrinks(p, R0, R1);
    }
  }

  /** At the fixed point, with an empty worklist, the reachable set is the least closed set. */
  lemma LeastAtFixedPoint(p: Program, R: set<MethodRef>, base: set<MethodRef>)
    requires WellFormed(p) && FinalizerClosed(p, R) && ProcessedAll(p, [], R, {})
    requires base <= R && (forall m :: IsStaticInitializer(p, m) ==> m in R)
    requires BelowAllClosed(p, R, base)
    ensures CallClosed(p, R) && LeastClosedAbove(p, R, base)
  {
  }

  /** Removing the head of the worklist keeps the bookkeeping; the head is a reachable method. */
  lemma WorkStatePop(p: Program, W: seq<MethodRef>, R: set<MethodRef>)
    requires WorkState(p, W, R) && |W| > 0
    ensures WorkState(p, W[1..], R) && W[0] in R && IsMethod(p, W[0])
  {
    var T := W[1..];
    forall i, j | 0 <= i < j < |T| ensures T[i] != T[j] {
      assert T[i] == W[i + 1] && T[j] == W[j + 1];
    }
  }

  // ---------------------------------------------------------------
  // The analysis session

  class ChaAnalysis {
    const prog: Program
    const mainMethod: MethodRef
    const hierarchy: Hierarchy

    /** Reachable methods whose bodies are still to be processed, in discovery order. */
    var worklist: seq<MethodRef>
    /** All methods discovered so far. */
    var reachableMethods: set<MethodRef>

    ghost predicate Valid()
      reads this
    {
      IsMethod(prog, mainMethod) && WorkState(prog, worklist, reachableMethods)
    }

    /** No discovery is half done: the finalizer rule has been applied to every constructor,
        and every method off the worklist has had its calls resolved. */
    ghost predicate Settled()
      reads this
      requires WellFormed(prog)
    {
      FinalizerClosed(prog, reachableMethods) && ProcessedAll(prog, worklist, reachableMethods, {})
    }

    constructor (p: Program, main: MethodRef)
      requires WellFormed(p) && IsMethod(p, main)
      ensures prog == p && mainMethod == main && fresh(hierarchy) && hierarchy.tbl == map[]
      ensures Valid() && Settled()
      ensures worklist == [] && reachableMethods == {}
    {
      prog := p;
      mainMethod := main;
      hierarchy := new Hierarchy();
      worklist := [];
      reachableMethods := {};
    }

    /** Schedules a newly discovered method, and with a constructor the finalizers of its class. */
    method AddToWorklist(m: MethodRef)
      requires Valid() && IsMethod(prog, m)
      modifies this
      ensures Valid()
      ensures worklist == old(worklist) + NewWork(prog, old(reachableMethods), m)
      ensures reachableMethods == old(reachableMethods) + NewReach(prog, old(reachableMethods), m)
      decreases if IsConstructor(prog, m) then 1 else 0
    {
      if m in reachableMethods {
        return;
      }
      ghost var W0, R0 := worklist, reachableMethods;
      NewWorkUnfold(prog, R0, m);
      WorkStateAppend(prog, worklist, reachableMethods, m);
      worklist := worklist + [m];
      reachableMethods := reachableMethods + {m};
      ghost var W1, R1 := worklist, reachableMethods;
      if MethodOf(prog, m).name == "<init>" {
        var c := m.cls;
        var methods := prog.classes[c].methods;
        for j := 0 to |methods|
          invariant Valid()
          invariant worklist == W1 + PendingFinalizers(prog, c, j, R0)
          invariant reachableMethods == R1 + FinalizersBelow(prog, c, j)
        {
          FinalizerLoopStep(prog, m, j, R0, R1);
          if methods[j].name == "finalize" {
            AppendAssoc(W1, PendingFinalizers(prog, c, j, R0), NewWork(prog, reachableMethods, MethodRef(c, j)));
            AddToWorklist(MethodRef(c, j));
          }
        }
        AppendAssoc(W0, [m], PendingFinalizers(prog, c, |methods|, R0));
      }
    }

    /** Resolves one call site and schedules its targets. Returns the number of possible
        receiver classes (virtual and interface calls only) and the set of targets. */
    method ProcessCall(call: Stmt) returns (possibleCount: nat, targets: set<MethodRef>)
      requires WellFormed(prog) && Valid() && hierarchy.Valid(prog) && FinalizerClosed(prog, reachableMethods)
      requires call.Invoke? && StmtClosed(prog, call)
      modifies this
      ensures Valid() && FinalizerClosed(prog, reachableMethods)
      ensures targets == StmtTargets(prog, call)
      ensures Discovered(prog, old(worklist), old(reachableMethods), worklist, reachableMethods, targets)
      ensures IsVirtualCall(call) ==>
        possibleCount == |Descendants(prog, call.receiver.cls)| && |targets| <= possibleCount
      ensures !IsVirtualCall(call) ==> possibleCount == 0
      ensures call.kind != StaticInvoke && call.kind != SpecialInvoke && !IsVirtualCall(call) ==>
        worklist == old(worklist) && reachableMethods == old(reachableMethods)
    {
      ghost var W0, R0 := worklist, reachableMethods;
      DiscoveredNothing(prog, W0, R0);
      var staticTarget := call.target;
      if call.kind == StaticInvoke || call.kind == SpecialInvoke {
        AddToWorklist(staticTarget);
        DiscoveredStep(prog, W0, R0, W0, R0, {}, staticTarget);
        NewWorkFacts(prog, W0, R0, staticTarget);
        return 0, {staticTarget};
      }
      if call.kind == VirtualInvoke || call.kind == InterfaceInvoke {
        if !call.receiver.RefType? {
          return 0, {};
        }
        var staticClass := call.receiver.cls;
        var possible := hierarchy.PossibleReceiverClasses(prog, staticClass);
        assert possible == Descendants(prog, staticClass);
        targets := ScheduleDispatchTargets(staticTarget, possible);
        TargetsOfBound(prog, staticTarget, possible);
        return |possible|, targets;
      }
      return 0, {};
    }

    /** The loop of a virtual or interface call: dispatches `staticTarget` on every class of
        `possible` and schedules each run-time target. */
    method ScheduleDispatchTargets(staticTarget: MethodRef, possible: set<ClassId>)
      returns (targets: set<MethodRef>)
      requires WellFormed(prog) && Valid() && hierarchy.Valid(prog) && FinalizerClosed(prog, reachableMethods)
      requires IsMethod(prog, staticTarget) && forall d :: d in possible ==> d < |prog.classes|
      modifies this
      ensures Valid() && FinalizerClosed(prog, reachableMethods)
      ensures targets == TargetsOf(prog, staticTarget, possible)
      ensures Discovered(prog, old(worklist), old(reachableMethods), worklist, reachableMethods, targets)
    {
      ghost var W0, R0 := worklist, reachableMethods;
      DiscoveredNothing(prog, W0, R0);
      targets := {};
      var rest := possible;
      while rest != {}
        invariant Valid() && FinalizerClosed(prog, reachableMethods)
        invariant rest <= possible
        invariant targets == TargetsOf(prog, staticTarget, possible - rest)
        invariant Discovered(prog, W0, R0, worklist, reachableMethods, targets)
        decreases rest
      {
        var runtimeClass :| runtimeClass in rest;
        ghost var W1, R1 := worklist, reachableMethods;
        var runtimeTarget := hierarchy.VirtualDispatch(prog, staticTarget, runtimeClass);
        MoveToDone(possible, rest, runtimeClass);
        TargetsOfAdd(prog, staticTarget, possible - rest, runtimeClass);
        rest := rest - {runtimeClass};
        AddToWorklist(runtimeTarget);
        NewWorkFacts(prog, W1, R1, runtimeTarget);
        DiscoveredStep(prog, W0, R0, W1, R1, targets, runtimeTarget);
        targets := targets + {runtimeTarget};
      }
      NothingPending(possible, rest);
    }

    /** Resolves every call site of `m`'s body, in order; native and abstract methods are skipped. */
    method ProcessMethod(m: MethodRef)
      requires WellFormed(prog) && Valid() && hierarchy.Valid(prog) && FinalizerClosed(prog, reachableMethods)
      requires IsMethod(prog, m)
      modifies this
      ensures Valid() && FinalizerClosed(prog, reachableMethods)
      ensures Discovered(prog, old(worklist), old(reachableMethods), worklist, reachableMethods,
                         CallTargets(prog, m))
      ensures MethodOf(prog, m).isNative || MethodOf(prog, m).isAbstract ==>
        worklist == old(worklist) && reachableMethods == old(reachableMethods)
    {
      ghost var W0, R0 := worklist, reachableMethods;
      DiscoveredNothing(prog, W0, R0);
      var md := MethodOf(prog, m);
      if md.isNative || md.isAbstract {
        return;
      }
      var body := md.body;
      MethodBodyClosed(prog, m);
      for i := 0 to |body|
        invariant Valid() && FinalizerClosed(prog, reachableMethods)
        invariant Discovered(prog, W0, R0, worklist, reachableMethods, BodyTargets(prog, body[..i]))
      {
        var s := body[i];
        BodyTargetsSnoc(prog, body, i);
        if !s.Invoke? {
          continue;
        }
        ghost var W1, R1 := worklist, reachableMethods;
        var possibleCount, targets := ProcessCall(s);
        DiscoveredTrans(prog, W0, R0, W1, R1, BodyTargets(prog, body[..i]), worklist, reachableMethods, targets);
      }
      BodyTargetsSnoc(prog, body, |body|);
    }

    /** Seeds the worklist with `main` and every static initializer, then processes
        the head of the worklist until it is empty. */
    method Analyze()
      requires WellFormed(prog) && Valid() && Settled()
      requires forall c :: c in hierarchy.tbl ==> c in ClassIds(prog)
      modifies this, hierarchy
      ensures Valid() && Settled() && hierarchy.Valid(prog)
      ensures worklist == []
      ensures old(reachableMethods) <= reachableMethods
      ensures mainMethod in reachableMethods
      ensures forall m :: IsStaticInitializer(prog, m) ==> m in reachableMethods
      ensures FinalizerClosed(prog, reachableMethods) && CallClosed(prog, reachableMethods)
      ensures LeastClosedAbove(prog, reachableMethods, old(reachableMethods) + {mainMethod})
    {
      hierarchy.Initialize(prog);
      ghost var W0, R0 := worklist, reachableMethods;
      ghost var base := R0 + {mainMethod};
      SeedEntryFacts(prog, W0, R0, mainMethod);
      AddToWorklist(mainMethod);
      ghost var R1 := reachableMethods;
      Seed();
      BelowAllClosedStep(prog, base, R1, StaticInitializers(prog), reachableMethods);
      while |worklist| != 0
        invariant Valid() && Settled() && hierarchy.Valid(prog)
        invariant R0 <= reachableMethods && mainMethod in reachableMethods
        invariant forall m :: IsStaticInitializer(prog, m) ==> m in reachableMethods
        invariant BelowAllClosed(prog, reachableMethods, base)
        decreases AllMethods(prog) - reachableMethods, |worklist|
      {
        ghost var W1, R1 := worklist, reachableMethods;
        ProcessHead();
        MainLoopStep(prog, base, W1, R1, worklist, reachableMethods);
      }
      LeastAtFixedPoint(prog, reachableMethods, base);
    }

    /** The body of the main loop: removes the head of the worklist and processes it. */
    method ProcessHead()
      requires WellFormed(prog) && Valid() && hierarchy.Valid(prog) && FinalizerClosed(prog, reachableMethods)
      requires |worklist| > 0
      modifies this
      ensures Valid() && FinalizerClosed(prog, reachableMethods)
      ensures |old(worklist)| > 0 && IsMethod(prog, old(worklist)[0])
      ensures Discovered(prog, old(worklist)[1..], old(reachableMethods), worklist, reachableMethods,
                         CallTargets(prog, old(worklist)[0]))
    {
      var m := worklist[0];
      WorkStatePop(prog, worklist, reachableMethods);
      worklist := worklist[1..];
      ProcessMethod(m);
    }

    /** Schedules every static initializer of the program, class by class. */
    method Seed()
      requires WellFormed(prog) && Valid() && Settled()
      modifies this
      ensures Valid() && Settled()
      ensures old(reachableMethods) <= reachableMethods
      ensures forall m :: IsStaticInitializer(prog, m) ==> m in reachableMethods
      ensures Discovered(prog, old(worklist), old(reachableMethods), worklist, reachableMethods,
                         StaticInitializers(prog))
      ensures reachableMethods == old(reachableMethods) + StaticInitializers(prog)
    {
      ghost var W0, R0 := worklist, reachableMethods;
      DiscoveredNothing(prog, W0, R0);
      for c := 0 to |prog.classes|
        invariant Valid() && Settled()
        invariant Discovered(prog, W0, R0, worklist, reachableMethods, StaticInitializersBelow(prog, c))
      {
        ghost var W1, R1 := worklist, reachableMethods;
        SeedClass(c);
        StaticInitializersNextClass(prog, c);
        DiscoveredTrans(prog, W0, R0, W1, R1, StaticInitializersBelow(prog, c), worklist, reachableMethods,
                        ClassInitializersBelow(prog, c, |prog.classes[c].methods|));
      }
      StaticInitializersAll(prog);
      WithFinalizersStaticInitializers(prog);
    }

    /** The inner loop of the seeding: schedules the static initializers of class `c`. */
    method SeedClass(c: ClassId)
      requires WellFormed(prog) && Valid() && Settled() && c < |prog.classes|
      modifies this
      ensures Valid() && Settled()
      ensures Discovered(prog, old(worklist), old(reachableMethods), worklist, reachableMethods,
                         ClassInitializersBelow(prog, c, |prog.classes[c].methods|))
    {
      ghost var W0, R0 := worklist, reachableMethods;
      DiscoveredNothing(prog, W0, R0);
      for j := 0 to |prog.classes[c].methods|
        invariant Valid() && Settled()
        invariant Discovered(prog, W0, R0, worklist, reachableMethods, ClassInitializersBelow(prog, c, j))
      {
        SeedMethod(c, j, W0, R0);
      }
    }

    /** The body of the inner seeding loop: schedules the `j`-th method of class `c` when it
        is a static initializer, extending the discovery that began at `(W0, R0)`. */
    method SeedMethod(c: ClassId, j: nat, ghost W0: seq<MethodRef>, ghost R0: set<MethodRef>)
      requires WellFormed(prog) && Valid() && Settled()
      requires c < |prog.classes| && j < |prog.classes[c].methods|
      requires Discovered(prog, W0, R0, worklist, reachableMethods, ClassInitializersBelow(prog, c, j))
      modifies this
      ensures Valid() && Settled()
      ensures Discovered(prog, W0, R0, worklist, reachableMethods, ClassInitializersBelow(prog, c, j + 1))
    {
      ClassInitializersStep(prog, c, j);
      if prog.classes[c].methods[j].name == "<clinit>" {
        SettledSchedule(prog, worklist, reachableMethods, MethodRef(c, j));
        DiscoveredStep(prog, W0, R0, worklist, reachableMethods, ClassInitializersBelow(prog, c, j), MethodRef(c, j));
        AddToWorklist(MethodRef(c, j));
      }
    }
  }
}
