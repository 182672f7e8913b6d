# CHA call-graph construction, modelled in Dafny

The repository builds a call graph by class-hierarchy analysis (CHA). Starting
from `main` and from every static initializer, it discovers every method that
may run, and it resolves virtual and interface calls against a class-hierarchy
index rather than points-to information. This project models the two parts
that carry the logic:

- **The hierarchy index** (`Hierarchy`, in `hierarchy.dfy`). A table maps every
  class and interface to its possible receiver classes. These are the concrete
  classes that reach it by walking up superclass and interface links. The table
  is filled in place by `Initialize` and the recursive `Traverse`.
  `VirtualDispatch` simulates JVM dispatch: it walks the superclass chain of the
  receiver class and returns the first method with the static target's
  sub-signature, or the static target itself when nothing matches.
- **The reachability engine** (`ChaAnalysis`, in `cha_analysis.dfy`). A FIFO
  worklist and a reachable-method set, both fields updated in place.
  `AddToWorklist` skips methods that are already reachable. When it schedules a
  constructor (`<init>`), it also schedules every method named `finalize` in the
  constructor's class. `Analyze` builds the index, seeds the worklist with `main`
  and every `<clinit>`, and pops the head until the worklist is empty.
  `ProcessMethod` walks a body's call sites. `ProcessCall` adds the target of a
  static or special call directly; a virtual or interface call on a reference
  receiver is expanded over the possible receiver classes through
  `VirtualDispatch`.

The program the analysis reads is a value (`program_model.dfy`):
- A class is identified by its position in the program's class list.
- A method is identified by its class and its position in that class's method
  list (`MethodRef`). This stands in for the object identity of the bytecode
  framework's class and method objects.
- A method body is reduced to its sequence of call sites.
- The hierarchy must be closed: every superclass, interface, call target and
  receiver class lies in the program.
- The hierarchy must be acyclic. A rank that strictly decreases along every
  superclass and interface link witnesses this (`WellFormed`), and it is what
  makes `Traverse` and the dispatch loop terminate.

Each imperative operation is proved against an independent reference
definition:
- `Descendants` is defined as the concrete classes from which an explicit
  upward path reaches the class.
- `Dispatch` is the first match along the superclass chain.
- `CallTargets` is the set of call-graph edges of a method.
- `NewWork` and `NewReach` give what one scheduling step appends to the
  worklist and adds to the reachable set.
- `Discovered` states that a sequence of steps added exactly a given set of
  targets, closed under the finalizer rule, and appended each newly reachable
  method to the worklist.

At the end of `Analyze`:
- the worklist is empty;
- `main` and every `<clinit>` are reachable;
- every constructor brings its class's finalizers;
- every call target of every reachable method is reachable (`CallClosed`);
- the reachable set is the least such set (`LeastClosedAbove`): it lies inside
  every set that contains `main`, the static initializers and the methods
  reachable before, and that is closed under the finalizer rule and under call
  targets. So it holds exactly the methods reachable from `main` and the
  static initializers, and it does not depend on discovery order.

`CallSiteClosure` turns the closure under call targets into statements about
individual call sites. Termination follows because each loop iteration either makes a new
method of the finite program reachable or shortens the worklist.

## Model

| member | source | states |
|---|---|---|
| HierarchyIndex.NotAbstract | src/Hierarchy.java:132-135 | a class is not instantiable exactly when it is an interface or abstract |
| HierarchyIndex.NotLibrary | src/Hierarchy.java:137-142 | a class is library code exactly when its name starts with "java.", "javax." or "sun." |
| HierarchyIndex.NotLibraryMethod | src/Hierarchy.java:144-146 | a method is library code exactly when its declaring class's name starts with "java.", "javax." or "sun." |
| HierarchyIndex.StartsWith | src/Hierarchy.java:139-141 | the prefix test used by `notLibrary` holds exactly when the prefix is a prefix of the name |
| HierarchyIndex.ConcreteIsOwnReceiver | src/Hierarchy.java:26-39 | every concrete class is among its own possible receiver classes, since `traverse(c, c)` adds it to its own set first |
| HierarchyIndex.ReceiversConcrete | src/Hierarchy.java:26-29 | every possible receiver class is a concrete class of the program from which the static class is reached upward |
| HierarchyIndex.AbstractNeverReceiver | src/Hierarchy.java:26-29 | an interface or abstract class, the classes for which `notAbstract` is false, is a receiver of no type, not even its own |
| HierarchyIndex.DescendantsAlongLink | src/Hierarchy.java:51-60 | a receiver of a class is a receiver of each of its direct superclass and interfaces |
| HierarchyIndex.DescendantsUnfold | src/Hierarchy.java:33-60 | the receivers of C are C itself if concrete, together with the receivers of the direct subclasses and implementors of C, both directions |
| HierarchyIndex.TraverseCovers | src/Hierarchy.java:51-60 | the classes reached from `supr` are `supr`, those above its interfaces, and those above its superclass, both directions |
| HierarchyIndex.Hierarchy.constructor | src/Hierarchy.java:10 | the table starts empty |
| HierarchyIndex.Hierarchy.Initialize | src/Hierarchy.java:15-30 | afterwards every program class has an entry, its set is exactly its possible receiver classes, other entries are untouched, and the index is valid when nothing outside the program was in it |
| HierarchyIndex.Hierarchy.Traverse | src/Hierarchy.java:33-67 | adds `sub` to the set of `supr` and of every class and interface above `supr`, via interfaces and superclass, and leaves every other set unchanged |
| HierarchyIndex.Hierarchy.AllClasses | src/Hierarchy.java:13 | on a valid index, the key set equals the set of program classes |
| HierarchyIndex.Hierarchy.PossibleReceiverClasses | src/Hierarchy.java:69-83 | on a valid index, the result's members are exactly the concrete classes that are the static class or reach it upward |
| HierarchyIndex.FindBySubSig | src/Hierarchy.java:104-111 | the scan of one class's methods returns the index of the first method with the sub-signature, or nothing when none has it |
| HierarchyIndex.FirstMatch | src/Hierarchy.java:101-121 | the search along a chain finds a method with the sub-signature in a class before which no class of the chain declares it, and finds nothing exactly when no class of the chain declares it |
| HierarchyIndex.FirstMatchNearest | src/Hierarchy.java:101-121 | once some class of the chain declares the sub-signature, the search succeeds at that class or an earlier one |
| HierarchyIndex.FirstMatchHit | src/Hierarchy.java:104-109 | the search stops at the first method of the current class with the sub-signature |
| HierarchyIndex.FirstMatchSkip | src/Hierarchy.java:102-112 | a class that declares no match passes the search on to its superclass, which is lower in rank |
| HierarchyIndex.FirstMatchRoot | src/Hierarchy.java:114-121 | at the root of the chain, a class without a match ends the search empty-handed |
| HierarchyIndex.Dispatch | src/Hierarchy.java:101-129 | the dispatch target is a method of the program with the static target's sub-signature |
| HierarchyIndex.DispatchNearest | src/Hierarchy.java:101-121 | dispatch picks a class of the receiver's superclass chain, checking the receiver class first, before which no class of the chain declares the sub-signature; interfaces are not on the chain |
| HierarchyIndex.DispatchFallback | src/Hierarchy.java:128-129 | when no class on the chain up to and including the root declares the sub-signature, dispatch returns the static target |
| HierarchyIndex.DispatchOwnDeclaration | src/Hierarchy.java:104-109 | a receiver class that declares the sub-signature dispatches to its own method |
| HierarchyIndex.DispatchOnDeclaringClass | src/Hierarchy.java:104-109 | dispatching a method on its own declaring class yields the method itself |
| HierarchyIndex.DispatchInherited | src/Hierarchy.java:102-112 | a class that does not declare the sub-signature dispatches as its superclass does |
| HierarchyIndex.Hierarchy.VirtualDispatch | src/Hierarchy.java:87-130 | the method walking the superclass chain returns exactly the reference dispatch target |
| ProgramModel.SuperChainFrom | src/Hierarchy.java:101-113 | the chain starts at the receiver class, follows superclass links only, stays in the program and ends at a class without a superclass |
| ProgramModel.ReachesTrans | src/Hierarchy.java:51-60 | upward reachability along superclass and interface links is transitive |
| ProgramModel.ReachesUnfold | src/Hierarchy.java:51-60 | a class reaches k exactly when it is k or one of its direct superclass and interfaces reaches k |
| Reachability.PendingFinalizersFacts | src/ChaAnalysis.java:88-97 | the finalizers the rule appends are distinct, are exactly the not-yet-reachable methods named "finalize" of the class, and come from that class |
| Reachability.FinalizerLoopStep | src/ChaAnalysis.java:90-97 | one step of the scan over the constructor's class schedules the method exactly when it is named "finalize", and a finalizer is not itself a constructor |
| Reachability.NewWorkFacts | src/ChaAnalysis.java:59-98 | scheduling a method appends to the worklist exactly what it adds to the reachable set, keeps the worklist distinct and inside the reachable set, and keeps the finalizer rule closed |
| Reachability.ChaAnalysis.constructor | src/ChaAnalysis.java:37-50 | a fresh empty index, an empty worklist and an empty reachable set |
| Reachability.ChaAnalysis.AddToWorklist | src/ChaAnalysis.java:56-104 | nothing changes for a reachable method; otherwise the method is appended and made reachable, and for a name "<init>" so is every not-yet-reachable "finalize" method of its class, in declaration order |
| Reachability.TargetsOfBound | src/ChaAnalysis.java:253-280 | a virtual call has at most as many targets as possible receiver classes |
| Reachability.ChaAnalysis.ScheduleDispatchTargets | src/ChaAnalysis.java:253-275 | the targets are the dispatch of the static target on every possible receiver class, and each is scheduled |
| Reachability.ChaAnalysis.ProcessCall | src/ChaAnalysis.java:202-285 | a static or special call schedules its target; a virtual or interface call on a reference receiver schedules every dispatch target, reporting the receiver count and at most that many targets; anything else changes nothing |
| Reachability.BodyTargetsSnoc | src/ChaAnalysis.java:181-197 | the edges of a body prefix grow by one statement's edges, and a statement without a call adds none |
| Reachability.BodyTargetsContains | src/ChaAnalysis.java:181-197 | each statement's edges are among the edges of its body |
| Reachability.ChaAnalysis.ProcessMethod | src/ChaAnalysis.java:169-199 | resolves every call site of the body and schedules exactly the method's call-graph edges; a native or abstract method changes nothing |
| Reachability.DiscoveredStep | src/ChaAnalysis.java:258-275 | scheduling one more target extends a discovery by that target |
| Reachability.DiscoveredTrans | src/ChaAnalysis.java:181-197 | two discoveries in sequence discover the union of their targets |
| Reachability.SettledSchedule | src/ChaAnalysis.java:117-150 | seeding a method keeps the finalizer rule closed and every method off the worklist processed |
| Reachability.SeedEntryFacts | src/ChaAnalysis.java:117 | seeding `main` keeps the worklist settled, and what it makes reachable lies inside every set closed above `main` and the methods reachable before |
| Reachability.StaticInitializers | src/ChaAnalysis.java:132-144 | the set holds exactly the methods named "<clinit>" of the program's classes |
| Reachability.ClassInitializersStep | src/ChaAnalysis.java:137-144 | the scan over a class's methods picks up one "<clinit>" method at a time, in declaration order |
| Reachability.StaticInitializersNextClass | src/ChaAnalysis.java:132-150 | after a class has been scanned, the seeded static initializers are those of the classes up to and including it |
| Reachability.WithFinalizersStaticInitializers | src/ChaAnalysis.java:140 | static initializers are not constructors, so seeding them triggers no finalizer |
| Reachability.SettledPop | src/ChaAnalysis.java:156-164 | popping the head and processing it keeps every method off the worklist processed, and when nothing new became reachable the worklist just lost its head |
| Reachability.UnreachedShrinks | src/ChaAnalysis.java:156-164 | each new discovery leaves fewer methods of the finite program undiscovered, which bounds the main loop |
| Reachability.ChaAnalysis.Seed | src/ChaAnalysis.java:132-150 | afterwards the reachable set is exactly the old one plus every method named "<clinit>" of every class, and the worklist grew at its end by exactly the newly reachable ones |
| Reachability.ChaAnalysis.SeedClass | src/ChaAnalysis.java:136-144 | schedules exactly the "<clinit>" methods of one class, appending the newly reachable ones |
| Reachability.ChaAnalysis.SeedMethod | src/ChaAnalysis.java:139-143 | one method of the scan is scheduled exactly when it is named "<clinit>" |
| Reachability.WorkStatePop | src/ChaAnalysis.java:159 | removing the head keeps the worklist distinct and inside the reachable set, and the head is a reachable method |
| Reachability.ChaAnalysis.ProcessHead | src/ChaAnalysis.java:159-163 | removes the head of the worklist and discovers exactly its call-graph edges |
| Reachability.MainLoopStep | src/ChaAnalysis.java:156-164 | one round of the loop keeps the worklist settled and the reachable set inside every closed set, and either discovers a method or shortens the worklist |
| Reachability.BelowAllClosedStep | src/ChaAnalysis.java:59-98 | discovering methods that every closed set contains, with their finalizers, keeps the reachable set inside every closed set |
| Reachability.BelowAllClosedProcess | src/ChaAnalysis.java:163-197 | processing a method that every closed set contains discovers only methods that every closed set contains |
| Reachability.LeastAtFixedPoint | src/ChaAnalysis.java:156-166 | when the worklist is empty, the reachable set is closed under call targets and is the least closed set |
| Reachability.LeastClosedAboveUnique | src/ChaAnalysis.java:48-50 | the least closed set is unique, so the reachable set does not depend on the order of discovery |
| Reachability.ChaAnalysis.Analyze | src/ChaAnalysis.java:108-166 | the loop ends with an empty worklist; main and every "<clinit>" are reachable; every constructor brings its class's finalizers; every call target of a reachable method is reachable; and the reachable set is the least set with these properties above the methods reachable before, so it holds exactly the methods reachable from main and the static initializers |
| Reachability.CallSiteClosure | src/ChaAnalysis.java:181-275 | at the fixed point, in every reachable method with a body, a static or special call's target is reachable, and for a virtual or interface call on a reference receiver the dispatch target on every possible receiver class is reachable |

## Left out

- `src/ChaWriter.java` and every `writer` call (`startNewMethod`, `writeSimpleCall`, `writeComplexCall`, `writeTarget`), together with `setOutputDir` and `createOutput`. These write output files. The model treats them as no-ops. `ProcessCall` instead returns what `writeComplexCall` and `writeTarget` would receive: the receiver count, and the set of targets, whose size is the second number `writeComplexCall` writes.
- `setMainClass` and the lookups into the bytecode framework's scene (src/ChaAnalysis.java:13-22). `main` is a constructor argument of `ChaAnalysis`. Class, method and body lookups become the datatypes of `program_model.dfy`.
- `getApplicationClasses` (src/ChaAnalysis.java:111). Its comment says library classes are included, but application classes are what the framework returns. The model indexes every class of the program. A receiver type missing from the index would make the source fail with a null set; the closed-hierarchy precondition excludes that case.
- The blanket `try`/`catch` blocks and their `System.err` logging (src/Hierarchy.java:49-65, 99-126; src/ChaAnalysis.java:86-103, 134-149). They only matter when an ancestor or method lies outside the program. The model requires a closed hierarchy instead (`ProgramModel.Closed`). The message at src/Hierarchy.java:128 is output only.
- Acyclicity and unique sub-signatures per class are preconditions (`WellFormed`). The source relies on the Java type system for both.
- HashSet iteration order over the possible receiver classes. `ScheduleDispatchTargets` picks each class with `:|`. The relative worklist order of the targets of one virtual call is therefore not fixed; the contracts state what is appended, as sets.
- Invoke kinds other than the four handled (`DynamicInvoke` stands for them). `ProcessCall` makes no change for them, as the source does.
- The finalizer rule matches the name "finalize" only, as the code does. The source comment speaks of signature `finalize()` with return type `void`. The model follows the code.
- Structure: some loops and loop bodies of the source are factored into helper methods. Their statements are those of the source:
  - the loop of `processCall` over the possible receiver classes is `ScheduleDispatchTargets`;
  - the seeding loop of `analyze` is `Seed`;
  - its inner loop over one class's methods is `SeedClass`, and that loop's body is `SeedMethod`;
  - the body of the main loop, which removes the head and processes it, is `ProcessHead`.
- Reachability.ChaAnalysis.Analyze: the breadth-first order is stated only through its steps: the head is popped, and new methods are appended at the end. Distances in the call graph are not stated.
