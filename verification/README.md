# Verified model of the Zig browser plugin and its libraries

This project models the stateful parts of the Zig sensor plugin, of the JavaScript that ships
with it, and of the libraries its samples use, and proves what they promise. Six independent
groups of modules:

* **Exact linear algebra** (`LinearAlgebra`, `Elimination`, `Sylvester`). The matrix class reduces to
  right-triangular form with row additions only; determinant, singularity test and inverse rest on
  it. The model proves the determinant equal to the cofactor expansion and the inverse two-sided
  exactly when it exists. Numbers are exact reals. Source cells for this group say line 1 because
  the file is one packed line.
* **Ear clipping and the scene index** (`EarClipping`, `SceneGraph`, `SceneLaws`). Triangulation of a polygon by an
  index ring and a retry budget, with conservation of area and a law that leaves one run. The tree of
  scene objects, the scene's lists and queues with their order, and the renderer that drains them.
* **Users, hands and sessions** (`ControlLists`, `Engagement`, `Tracking`, `EngagementRuns`,
  `UserTracking`, `TrackingLaws`). Nested control lists with callbacks, the manager that engages one user at a time
  and edits a list while it is being iterated, and the tracker that turns frames into users, hands,
  sessions and events. `Tracking` and `EngagementRuns` are the effect of frames on ids and on
  engagement as functions; `UserTracking` is the class with its mutable fields, proved against them.
* **Selector caches** (`SizzleCache`, `SizzleNoise`). The search for ancestors or earlier siblings and
  the nth-child filter share one field of the nodes and one counter. A slot of the search is blind if
  its marks make it miss the node of an earlier slot, and exposed if that depends on which marks the
  searches nested in it overwrite.
* **Query strings** (`PercentEncoding`, `PercentLaws`, `QueryString`, `QueryLaws`). Printing hashes and
  parsing them back, and what any other text is parsed to.
* **Sensor streams and the frame pump** (`Base64`, `SensorMaps`, `MapLaws`, `FramePump`). Downscaling loops that
  stream pixels into base64 buffers, and the timer tick that reopens the sensor and serves the
  listeners.

`Common` holds what several of these modules share. The modules whose names end in `Laws` say of the
specification functions what they mean, without using their definitions.

Conventions. Objects that the source mutates are classes with the same fields, and a heap that
several methods share is described by a value (a shape, a tree, a depth map) that a `Valid` predicate
ties to the fields. Exceptions are results (`TypeError`, `None`, `threw`). A loop over the keys of
an object runs in arbitrary order, `forEach` over an array in ascending order. Everything the
environment decides is a parameter: frames, hand reports, what the sensor does in a tick, which
listeners raise, what marks a nested search leaves.

Where the code does something other than its documentation or names suggest, the model follows the code:

* `determinant`, `isSingular` and `inverse` raise an error for a 1x1 matrix, because the diagonal loop
  reads the second row before it tests its counter.
* `RemoveControl` evicts the last listener when the control is not in the list, and raises when the
  list is empty during a session.
* A lost user gets no session end, so the shared controls of the engagement manager stay started
  until the next engagement starts them again. What they hear is bracketed exactly if that never
  happens.
* A hand whose real user vanishes stays mapped to an id that is no longer tracked, and when one of
  two hands of an unreported user goes, the user goes with it.
* A hand of no user gets a number from 1337 on as its user, whoever else has that number.
* In the search for later siblings the nodes that are searched from are marked too, so one of them is
  not found from the next: `p ~ p` misses a paragraph right after the first one.
* A sprite with a render callback is listed by the renderer as an object that draws itself, and stays
  listed there when it is removed.
* A scene that is put below another object keeps its lists, but they no longer follow what is added
  below it and removed.
* A listener that is added while the sensor is connected is never told so.
* A key that every object inherits is taken for a key already parsed.

## Model

| member | source | states |
|---|---|---|
| `Sylvester.Matrix.ToRightTriangular` | Samples/NewZigJS/sylvester.js:1 | for every rectangular matrix the result is upper triangular and is what one pass for every row leads to, each given entry by entry: a nonzero pivot leaves its row as it is, a zero one gains the first lower row with an entry in the column, lower rows lose a multiple of the pivot row; a first row with a nonzero first entry is the first row of the result |
| `Sylvester.Matrix.ClearedRow` | Samples/NewZigJS/sylvester.js:1 | one row of the inner loop is the row minus a multiple of the pivot row, also in the columns where a zero is written without computing |
| `Sylvester.Matrix.RepairPivot` | Samples/NewZigJS/sylvester.js:1 | only row i may change: under a nonzero pivot it does not; under a zero pivot it becomes, entry by entry, the sum of itself and the first lower row with a nonzero entry in the column; if there is none, nothing changes |
| `Sylvester.Matrix.ProcessColumn` | Samples/NewZigJS/sylvester.js:1 | one pass is the repair and the subtraction given entry by entry; it clears its column below the diagonal, keeps the rows above and a row with a nonzero pivot, and the end result of the remaining passes stays the same, also for a pass beyond the last column |
| `Sylvester.Matrix.ZeroRest` | Samples/NewZigJS/sylvester.js:1 | beyond the last column, where the pivot is missing, every row below is overwritten with zeros; that changes nothing |
| `Sylvester.Matrix.Determinant` | Samples/NewZigJS/sylvester.js:1 | the product of the diagonal is the cofactor determinant of the input; null when not square, an error for 1x1 because the loop reads the second row first |
| `Sylvester.Matrix.IsSingular` | Samples/NewZigJS/sylvester.js:1 | true exactly when the cofactor determinant is zero; false when not square, an error for 1x1 |
| `Sylvester.Matrix.Augment` | Samples/NewZigJS/sylvester.js:1 | the columns of the other matrix, or a vector as one column, are appended; null exactly when the row counts differ, an error exactly for a number or an empty vector |
| `Sylvester.Matrix.Multiply` | Samples/NewZigJS/sylvester.js:1 | a number multiplies every entry, a matrix gives the product and a vector its image; null exactly when the inner dimensions differ, an error exactly for an empty vector |
| `Sylvester.Matrix.I` | Samples/NewZigJS/sylvester.js:1 | the identity matrix |
| `Sylvester.Matrix.Inverse` | Samples/NewZigJS/sylvester.js:1 | for two or more rows null exactly when no left inverse exists, and otherwise a matrix that inverts the input from both sides; no division is by zero |
| `Sylvester.Matrix.BackSubstitute` | Samples/NewZigJS/sylvester.js:1 | from a triangular form without zeros on its diagonal, whose rows satisfy left half = right half times the input, the back substitution collects a left inverse of the input |
| `Sylvester.Matrix.SweepColumn` | Samples/NewZigJS/sylvester.js:1 | one pass of the back substitution leaves every row satisfying left half = right half times the input, and one more unit column |
| `Sylvester.AugmentedStart` | Samples/NewZigJS/sylvester.js:1 | triangularising the input augmented with the identity gives rows with left half = right half times the input and, for a nonzero determinant, no zero on the diagonal |
| `Elimination.AugmentedOps` | Samples/NewZigJS/sylvester.js:1 | eliminating an augmented matrix performs the same row additions as eliminating its left block alone |
| `Elimination.ApplyAugmented` | Samples/NewZigJS/sylvester.js:1 | row additions act on the two blocks of an augmented matrix separately |
| `Elimination.ReducedZeros` | Samples/NewZigJS/sylvester.js:1 | subtracting the pivot row gives exact zeros up to the pivot column, which is what the loop writes |
| `Elimination.RightTriangularIsUpper` | Samples/NewZigJS/sylvester.js:1 | the outcome of the elimination is upper triangular for every rectangular matrix |
| `Elimination.ReachesExactly` | Samples/NewZigJS/sylvester.js:1 | the passes, given entry by entry, lead to the result of the elimination and to nothing else |
| `Elimination.RowStays` | Samples/NewZigJS/sylvester.js:1 | a row that meets a nonzero pivot in its own pass is that row of the result |
| `Elimination.RestIsZero` | Samples/NewZigJS/sylvester.js:1 | once all columns are cleared, the rows below the last one on the diagonal are zero |
| `Elimination.ApplyKeepsDet` | Samples/NewZigJS/sylvester.js:1 | row additions keep the cofactor determinant |
| `Elimination.DeterminantByElimination` | Samples/NewZigJS/sylvester.js:1 | the product of the diagonal after elimination is the cofactor determinant of the input |
| `Elimination.SingularHasNoInverse` | Samples/NewZigJS/sylvester.js:1 | a matrix with determinant zero has no left inverse |
| `Elimination.LeftInverseIsRightInverse` | Samples/NewZigJS/sylvester.js:1 | for square matrices a left inverse is also a right inverse |
| `LinearAlgebra.DetAddRow` | Samples/NewZigJS/sylvester.js:1 | adding a multiple of one row to another keeps the cofactor determinant |
| `LinearAlgebra.DetEqualRows` | Samples/NewZigJS/sylvester.js:1 | two equal rows make the cofactor determinant zero |
| `LinearAlgebra.DetTriangular` | Samples/NewZigJS/sylvester.js:1 | the cofactor determinant of an upper triangular matrix is the product of its diagonal |
| `LinearAlgebra.ProductAssociates` | Samples/NewZigJS/sylvester.js:1 | matrix multiplication is associative, for all sizes that fit |
| `EarClipping.Area` | Samples/WebGLPointCloud/Three.js:535 | the shoelace loop computes the signed area as a sum over the edges of the ring |
| `EarClipping.Snip` | Samples/WebGLPointCloud/Three.js:535-536 | the ear test accepts exactly the ears: doubled area at least 1e-10 and no other vertex of the ring inside the closed triangle |
| `EarClipping.InsideIsClosedTriangle` | Samples/WebGLPointCloud/Three.js:536-537 | the three sign tests hold exactly for the points that are a weighted mean of the corners |
| `EarClipping.InitialRing` | Samples/WebGLPointCloud/Three.js:535 | the ring starts counter-clockwise: in order for positive area, reversed otherwise |
| `EarClipping.RemoveAt` | Samples/WebGLPointCloud/Three.js:537 | shifting the index array closes the ring over one position and keeps the order of the others |
| `EarClipping.ClipEar` | Samples/WebGLPointCloud/Three.js:537 | emitting the ear and closing the ring extends the clipping by one cut |
| `EarClipping.ClipEars` | Samples/WebGLPointCloud/Three.js:535-537 | the loop ends with two vertices, or with a warning and a ring in which no position is an ear; the first cut is the first ear counted from position 0, and every later one the first ear counted around the ring from behind the cut before it, or from position 1 if that one was the last position |
| `EarClipping.Triangulate` | Samples/WebGLPointCloud/Three.js:535-537 | null below three vertices; otherwise the clipping of the starting ring that always cuts the first ear met, complete exactly when there is no warning; a warning exactly when some ring of more than two vertices has no ear; never for a polygon in convex position, in either direction, whose triangles all have a doubled area of at least 1e-10 |
| `EarClipping.RunIsOne` | Samples/WebGLPointCloud/Three.js:535-537 | only one run cuts the first ear met each time and goes on to the end: the polygon alone decides the triangles and what is left |
| `EarClipping.TryNext` | Samples/WebGLPointCloud/Three.js:535 | the next position tried is the one behind the last, the first one behind the end of the ring, and position 1 when the last one was cut off at the end |
| `EarClipping.ClippingConserves` | Samples/WebGLPointCloud/Three.js:535-537 | for every antisymmetric edge weight the triangles emitted and the remaining ring add up to the starting ring |
| `EarClipping.StartRingArea` | Samples/WebGLPointCloud/Three.js:535 | the starting ring has the absolute area of the polygon |
| `EarClipping.AreaConserved` | Samples/WebGLPointCloud/Three.js:535-537 | at every step the areas of the triangles and of the remaining ring add up to the absolute area of the polygon |
| `EarClipping.CompleteTriangulation` | Samples/WebGLPointCloud/Three.js:535-537 | a clipping down to two vertices has n-2 triangles whose areas add up to the area of the polygon exactly, so that area is at least (n-2) halves of 1e-10 |
| `EarClipping.TrianglesAreClean` | Samples/WebGLPointCloud/Three.js:535-537 | each triangle emitted has distinct corners and no other vertex then remaining inside it or on its border |
| `EarClipping.TriedAll` | Samples/WebGLPointCloud/Three.js:535-536 | when a whole round of attempts has failed, no position of the ring is an ear |
| `EarClipping.ConvexIsNeverStuck` | Samples/WebGLPointCloud/Three.js:535-537 | whatever has been clipped off a polygon in convex position, what is left has an ear |
| `EarClipping.ConvexStart` | Samples/WebGLPointCloud/Three.js:535 | the signed area turns the starting ring of such a polygon counter-clockwise |
| `SceneGraph.Object3D.Add` | Samples/WebGLPointCloud/Three.js:54-55 | a becomes the last child of this object and leaves the children of its old parent, whose others keep their order; a child stays where it is; the lists of the scene change in the exact order of leaving and coming; agreement is kept exactly if the scene has no parent, or is what is moved, or a stays below it or outside, or nothing below a is listed |
| `SceneGraph.Object3D.Remove` | Samples/WebGLPointCloud/Three.js:55 | only a child is taken out; everything below it leaves the scene's lists, in preorder, if the walk up from here ends at the scene; agreement is kept exactly if the scene has no parent, or is what is taken out, or is not above a, or nothing below a is listed |
| `SceneGraph.SoundAfterAdd` | Samples/WebGLPointCloud/Three.js:54-55 | for every tree, also with the scene below other objects: after a move the lists are those below the scene exactly under that condition; in particular after moving the scene itself |
| `SceneGraph.SoundAfterRemove` | Samples/WebGLPointCloud/Three.js:55 | the same for a removal |
| `SceneGraph.TransferredShape` | Samples/WebGLPointCloud/Three.js:54-55 | the move keeps the tree a forest and changes only the parent of a and the children of its old and new parent |
| `SceneGraph.UnchangedByAdd` | Samples/WebGLPointCloud/Three.js:54-55 | while the scene is the child of another object, or becomes it, a move leaves its lists as they are |
| `SceneGraph.SceneBelowGroup` | Samples/WebGLPointCloud/Three.js:54-55 | a run that puts the scene below a group and then a drawable object below the scene, which is not listed |
| `SceneGraph.Object3D.Top` | Samples/WebGLPointCloud/Three.js:55 | the walk up the parents ends at the root above the object |
| `SceneGraph.Object3D.LeaveScene` | Samples/WebGLPointCloud/Three.js:55 | if the old parent lies below the scene, the objects of the subtree are removed from the lists one by one in preorder; otherwise the lists stay |
| `SceneGraph.Object3D.EnterScene` | Samples/WebGLPointCloud/Three.js:55 | if the new parent lies below the scene, the objects of the subtree are added to the lists one by one in preorder; otherwise the lists stay |
| `SceneGraph.Scene.AddObject` | Samples/WebGLPointCloud/Three.js:148 | the recursion adds the objects of the subtree in preorder, each at the end of its lists |
| `SceneGraph.Scene.RemoveObject` | Samples/WebGLPointCloud/Three.js:149 | the recursion removes the objects of the subtree in preorder; the others keep their order |
| `SceneGraph.PreorderIsSubtree` | Samples/WebGLPointCloud/Three.js:148-149 | the preorder visits exactly the objects below a |
| `SceneGraph.Lists.AddAllIsEnlisted` | Samples/WebGLPointCloud/Three.js:148 | after adding one by one nothing occurs twice; every object that is no light, camera or bone is in objects, the new ones are queued as added and off the removed queue, and lights are in lights |
| `SceneGraph.Lists.RemoveAllIsDelisted` | Samples/WebGLPointCloud/Three.js:149 | after removing one by one nothing occurs twice; nothing of the subtree is in objects, lights or the added queue, and exactly what was in objects is queued as removed |
| `SceneLaws.PreorderExactly` | Samples/WebGLPointCloud/Three.js:148-149 | the recursion visits everything below a once, what is above before what is below and an earlier branch before a later one; no other list does |
| `SceneLaws.SubtreeInOrder` | Samples/WebGLPointCloud/Three.js:148-149 | what comes below the scene goes to the ends of objects, lights and the added queue in the order of the visit, and what leaves goes to the end of the removed queue in that order; what was in a list keeps its place or order |
| `SceneLaws.AddAllInOrder` | Samples/WebGLPointCloud/Three.js:148 | adding a visited list appends exactly its new objects and lights, in its order, and moves nothing |
| `SceneLaws.RemoveAllInOrder` | Samples/WebGLPointCloud/Three.js:149 | removing a visited list appends exactly what was listed to the removed queue, in its order; the other lists are thinned out |
| `SceneLaws.IndexedExactly` | Samples/WebGLPointCloud/Three.js:148 | objects of all kinds but lights, cameras and bones are listed |
| `SceneGraph.Lists.AddIsEnlisted` | Samples/WebGLPointCloud/Three.js:148 | adding one object keeps the lists free of repeats and changes their contents as the sets say |
| `SceneGraph.Lists.RemoveIsDelisted` | Samples/WebGLPointCloud/Three.js:149 | removing one object keeps the lists free of repeats and changes their contents as the sets say |
| `SceneGraph.EnlistedPending` | Samples/WebGLPointCloud/Three.js:148 | after additions an object is in objects exactly if it is active or queued as added, and not queued as removed |
| `SceneGraph.DelistedPending` | Samples/WebGLPointCloud/Three.js:149 | the same after removals |
| `SceneGraph.DetachedAccurate` | Samples/WebGLPointCloud/Three.js:55 | after a child is taken out, objects and lights without its subtree are exactly those below the scene |
| `SceneGraph.AttachedAccurate` | Samples/WebGLPointCloud/Three.js:55 | after a child is put in, objects and lights with its subtree are exactly those below the scene |
| `SceneGraph.SubtreeWhole` | Samples/WebGLPointCloud/Three.js:148-149 | the recursion over children reaches exactly the descendants defined through parents |
| `SceneGraph.Scene.InitWebGLObjects` | Samples/WebGLPointCloud/Three.js:293-305 | the queues are drained one by one from the front into the renderer's three lists; afterwards the active objects are exactly scene.objects, and the lists hold exactly their buffers, sprites and objects that draw themselves, up to what is left behind |
| `SceneGraph.Scene.TakeAdded` | Samples/WebGLPointCloud/Three.js:303-304 | one object leaves the added queue; unless it is active already it goes to the end of the list of its sort, once a buffer, and every agreement is kept |
| `SceneLaws.PutInOrder` | Samples/WebGLPointCloud/Three.js:303-304 | the queue is taken from its front: its last object goes to the end of its list unless it was active or queued before |
| `SceneGraph.Scene.TakeRemoved` | Samples/WebGLPointCloud/Three.js:304-305 | one object leaves the removed queue and its entries leave the list of its sort, also when it never became active, and every agreement is kept |
| `SceneGraph.LeftBehind` | Samples/WebGLPointCloud/Three.js:303-305 | an active object is still listed after it was dropped exactly if it is a sprite that draws itself: the two loops ask for the sorts in different orders |
| `SceneGraph.SpriteStaysListed` | Samples/WebGLPointCloud/Three.js:303-305 | a run in which a sprite that draws itself is added, drawn, removed and drawn again, and is still listed although it is not active |
| `SceneGraph.Scene.RemoveInstances` | Samples/WebGLPointCloud/Three.js:247 | the backward loop leaves exactly the other entries, in their order |
| `SceneGraph.InitiallyValid` | Samples/WebGLPointCloud/Three.js:147 | an empty scene is in agreement |
| `SceneGraph.NewObjectValid` | Samples/WebGLPointCloud/Three.js:52 | a new object changes nothing for the scene |
| `ControlLists.ControlList.AddControl` | Samples/NewZigJS/zig.js:48-56 | the control becomes the last listener and, during a session, it and everything nested in it is told of a start; nothing else is |
| `ControlLists.ControlList.RemoveControl` | Samples/NewZigJS/zig.js:58-66 | the control, or when absent the last listener, is taken out and, during a session, told of an end; raises exactly when the list is empty during a session |
| `ControlLists.RemovalIsExact` | Samples/NewZigJS/zig.js:61 | removal takes out the given control and nothing else exactly if it is in the list or the list is empty |
| `ControlLists.EvictionExactly` | Samples/NewZigJS/zig.js:61 | taken out is the control at its first place if it is in the list, and the last listener if it is not; the others keep their order |
| `ControlLists.ControlList.OnSessionStart` | Samples/NewZigJS/zig.js:73-77 | the list, every list nested in it at any depth and every control in them hear the start once, and nothing else does |
| `ControlLists.ControlList.OnSessionEnd` | Samples/NewZigJS/zig.js:83-86 | the list, every list nested in it at any depth and every control in them hear the end once, and nothing else does |
| `ControlLists.ControlList.constructor` | Samples/NewZigJS/zig.js:39-44 | a new list is empty and in no session |
| `ControlLists.StartSession` | Samples/NewZigJS/zig.js:73-77 | starting a session on an outermost list keeps: a control is started exactly if its list is in a session, and its callbacks alternate |
| `ControlLists.EndSession` | Samples/NewZigJS/zig.js:83-86 | ending a session keeps the same |
| `ControlLists.AddStep` | Samples/NewZigJS/zig.js:48-56 | adding a control that sits in no list and is not started keeps the same agreement and, if callbacks alternated, alternation; exactly what it passes calls on to hears one start, during a session only |
| `ControlLists.RemoveStep` | Samples/NewZigJS/zig.js:58-66 | any removal, of a present or an absent control, keeps the same; exactly what the evicted control passes calls on to hears one end, during a session only |
| `ControlLists.FocusStep` | Samples/NewZigJS/zig.js:88-94 | moving the focus keeps the same; the old control hears its end before the new one its start; when the removal raises, the focus stays and nobody hears anything |
| `ControlLists.AgreeAfterTelling` | Samples/NewZigJS/zig.js:73-86 | telling a control and all below it makes their state agree with the list they sit in |
| `ControlLists.AlternateAfterTelling` | Samples/NewZigJS/zig.js:73-86 | telling keeps the callbacks of every control alternating |
| `Engagement.TrackedUser.NotifyListeners` | Samples/NewZigJS/zig.js:124-147 | the session of a user follows whether it has hands; it engages or disengages the user as the rule of one user at a time allows; the user's own controls hear exactly the start at the first hand or the end, the shared controls exactly one start or end if the user is engaged or disengaged |
| `Engagement.EngageSingleSession.OnNewUser` | Samples/NewZigJS/zig.js:854-881 | the new user gets one waiting control, and engagement stays exclusive |
| `Engagement.EngageSingleSession.OnLostUser` | Samples/NewZigJS/zig.js:883-889 | losing the engaged user ends the engagement without a session end for the shared controls |
| `Engagement.EngageSingleSession.UserListStart` | Samples/NewZigJS/zig.js:73-77 | the loop over the live list tells every listener of the user once, although the shared controls are appended while it runs; they hear one start, from being appended |
| `Engagement.EngageSingleSession.UserListEnd` | Samples/NewZigJS/zig.js:83-86 | the loop over the live list tells every listener of the user once, although the shared controls are spliced out while it runs; they hear one end, from being spliced out |
| `Engagement.EngageSingleSession.WaitStart` | Samples/NewZigJS/zig.js:857-866 | a session start engages the user exactly if nobody is engaged; then the shared controls are given to it and everything below them hears exactly one start |
| `Engagement.EngageSingleSession.WaitEnd` | Samples/NewZigJS/zig.js:867-876 | a session end disengages the user exactly if it is the engaged one; then the shared controls are taken back and everything below them hears exactly one end |
| `Engagement.EngageSingleSession.BeginUserSession` | Samples/NewZigJS/zig.js:124-131 | after a user's session starts the engaged id still names exactly the user whose list has the shared controls, and that user is in a session; its own controls hear one start, the shared ones one start if nobody was engaged |
| `Engagement.EngageSingleSession.EndUserSession` | Samples/NewZigJS/zig.js:133-137 | the same after a user's session ends, with one end for the shared controls if the user was engaged |
| `Engagement.EngageSingleSession.GiveControls` | Samples/NewZigJS/zig.js:48-56 | giving the shared controls to a user in session appends exactly one start to the calls of every control below them |
| `Engagement.EngageSingleSession.TakeControls` | Samples/NewZigJS/zig.js:58-66 | taking them back appends exactly one end |
| `Engagement.EngageSingleSession.HearsBracketedExactly` | Samples/NewZigJS/zig.js:854-889 | the calls of a control below the shared ones are those it came with and then one start for each engagement and one end for each disengagement; they alternate exactly if the former do and no engagement since then follows the loss of an engaged user |
| `Engagement.FollowerAlternates` | Samples/NewZigJS/zig.js:854-889 | the same for every exclusive history, with the last call a start exactly while somebody is engaged or was lost |
| `Engagement.EngageSingleSession.AddShared` | Samples/NewZigJS/zig.js:48-56 | a control added below the shared ones, also while they are started, hears a start exactly then, and follows the engagements from there on |
| `Engagement.EngageSingleSession.RemoveShared` | Samples/NewZigJS/zig.js:58-66 | a control removed below the shared ones hears an end exactly while they are started, and the rest still follows the engagements |
| `Engagement.EngageSingleSession.AddOwn` | Samples/NewZigJS/zig.js:48-56 | a control added to the list of a user hears a start exactly during the session of that user, and everything stays in agreement |
| `Engagement.EngageSingleSession.RemoveOwn` | Samples/NewZigJS/zig.js:58-66 | removing a control from the list of a user keeps everything in agreement exactly if what is evicted is a control of the user; an absent one evicts the last listener, which may be the waiting control, so that nobody waits any more, or the shared one, so that an engaged user has lost it |
| `Engagement.TrackedUser.NotifyDeaf` | Samples/NewZigJS/zig.js:124-147 | a user without waiting control never takes part in engagement again, while its own controls follow its hands as before |
| `TrackingLaws.SessionExactly` | Samples/NewZigJS/zig.js:124-147 | the controls of a user hear a start at the position of its first hand, or an end, or nothing |
| `TrackingLaws.HappeningsExactly` | Samples/NewZigJS/zig.js:835-899 | a user who gets hands while nobody is engaged is engaged at its first hand; the engaged user is disengaged when its last hand goes; nothing else happens |
| `TrackingLaws.HeardExactly` | Samples/NewZigJS/zig.js:835-899 | the shared controls hear a start at the focus of an engagement, an end of a disengagement and nothing of a loss |
| `UserTracking.UserTracker.ProcessNewUser` | Samples/NewZigJS/zig.js:202-213 | an untracked user becomes tracked and announced; a tracked one stays as it is |
| `UserTracking.UserTracker.ProcessLostUser` | Samples/NewZigJS/zig.js:215-224 | a tracked user is dropped and announced, and if engaged no longer is |
| `UserTracking.UserTracker.ProcessNewHand` | Samples/NewZigJS/zig.js:226-249 | the hand is mapped to its user, or to a new fake user if such hands are let in |
| `UserTracking.UserTracker.ProcessLostHand` | Samples/NewZigJS/zig.js:251-265 | the hand is dropped, and its user too unless that user is real |
| `UserTracking.UserTracker.UpdateUsers` | Samples/NewZigJS/zig.js:267-291 | users no longer reported are dropped if they were real, and all reported ones are tracked; exactly the others stay the objects they were; those dropped, and then those taken in, are announced |
| `UserTracking.UserTracker.UpdateHands` | Samples/NewZigJS/zig.js:293-330 | hands are dropped and taken in as the book of ids says, and every user gets exactly its hands; exactly the users that the lost hands leave stay the objects they were; those dropped, and then those taken in, are announced |
| `UserTracking.UserTracker.HandsOf` | Samples/NewZigJS/zig.js:317-327 | the list of a user holds exactly the reported hands mapped to it, each once |
| `TrackingLaws.HandsExactly` | Samples/NewZigJS/zig.js:317-327 | in the list of a user are exactly the entries, first of their id, of the hands it owns |
| `UserTracking.UserTracker.NotifyAll` | Samples/NewZigJS/zig.js:336 | afterwards the users in session are those with hands; an engaged user with hands stays engaged, and otherwise the smallest id that joins a session, counted after the engaged one, is; the history and the calls to every user's own controls are exact |
| `UserTracking.UserTracker.DoUpdate` | Samples/NewZigJS/zig.js:332-339 | one frame appends to the frames; which users stay, who is engaged, what is announced and what happens to engagement are those that the frames determine; the calls to the shared controls and to the own controls of every user are exact |
| `UserTracking.UserTracker.Reachable` | Samples/NewZigJS/zig.js:202-339 | in every state a tracker can reach, ids, sessions, the engaged id, the events of engagement and the announcements are those of the run; users and hands are grounded, the next fake id counts the hands of no user let in, and fakes and hands are paired unless a reported id is in their range |
| `UserTracking.UserTracker.SharedHears` | Samples/NewZigJS/zig.js:835-899 | in every state a tracker can reach, a control that came below the shared ones after n frames has heard starts and ends in turn, if it had before, exactly if no frame from n on engages a user abruptly; for a control there from the start, exactly if no frame engages a user in or after one that loses the engaged user |
| `UserTracking.UserTracker.AddControl` | Samples/NewZigJS/zig.js:48-56 | a control can be added to the list of a tracked user between frames; it hears a start exactly during the session of that user |
| `UserTracking.UserTracker.RemoveControl` | Samples/NewZigJS/zig.js:58-66 | a control can be removed between frames; everything stays in agreement exactly if what is evicted is a control of the user |
| `UserTracking.UserTracker.AddSharedControl` | Samples/NewZigJS/zig.js:48-56 | a control can be added below the shared ones between frames, during an engagement too |
| `UserTracking.UserTracker.RemoveSharedControl` | Samples/NewZigJS/zig.js:58-66 | and any can be removed; it raises exactly for an empty list in a session |
| `UserTracking.LossIsHeard` | Samples/NewZigJS/zig.js:215-224 | a run of three frames, in which an engaged user vanishes and another comes, after which a shared control has heard two starts in a row |
| `EngagementRuns.LostExactly` | Samples/NewZigJS/zig.js:251-291 | a frame loses the engaged user exactly if it does not report it, and it was reported before or loses a hand |
| `EngagementRuns.NextEngaged` | Samples/NewZigJS/zig.js:835-899 | the frames determine who is engaged: the engaged user, if it is not lost and has a hand; else the least that joins a session, after the engaged one if it is not lost |
| `TrackingLaws.EngagesExactly` | Samples/NewZigJS/zig.js:835-899 | who is engaged after a round, told by who holds hands and who joins |
| `TrackingLaws.EventsExactly` | Samples/NewZigJS/zig.js:835-899 | the events of a frame in all six cases, a loss or an end before an engagement |
| `EngagementRuns.OnExactly` | Samples/NewZigJS/zig.js:835-899 | over all runs the shared controls are on exactly while somebody is engaged or the last that was has been lost |
| `EngagementRuns.BracketedExactly` | Samples/NewZigJS/zig.js:835-899 | over all runs the engagements after the first n frames are bracketed exactly if no frame from n on engages a user in or after a loss without an engagement in between |
| `EngagementRuns.BracketedIffNoLossBefore` | Samples/NewZigJS/zig.js:835-899 | a run is bracketed from its start exactly if no frame engages a user in or after a frame that loses the engaged one |
| `UserTracking.UserTracker.constructor` | Samples/NewZigJS/zig.js:159-175 | a new tracker starts with the empty book |
| `UserTracking.GetItemById` | Samples/NewZigJS/zig.js:372-378 | the item with the id that no earlier item has, and none exactly if no item has it |
| `Tracking.TrackedExactly` | Samples/NewZigJS/zig.js:251-316 | a user is tracked after a frame exactly if it is reported, or was tracked without having been reported and loses no hand, or an entry of the frame for a new hand names it or gives it as the fake user |
| `Tracking.OwnerTrackedExactly` | Samples/NewZigJS/zig.js:251-316 | the owner of a hand kept from before is tracked after a frame exactly in these three cases, read off the frame and the book before; that of a new hand always is |
| `Tracking.StayingIsBeforeNewHands` | Samples/NewZigJS/zig.js:251-291 | the users that stay throughout a frame are those that it does not lose, and those left before new hands come in |
| `Tracking.FrameAnnounces` | Samples/NewZigJS/zig.js:202-224 | a frame announces of each user that it is lost, if it was tracked and does not stay, and then that it is new, if it is tracked without having stayed; nothing else |
| `Tracking.NewHandsExactly` | Samples/NewZigJS/zig.js:226-249 | what the entries of a frame add, entry by entry: the users they name and the consecutive fake ids of hands of no user |
| `Tracking.TrackedHands` | Samples/NewZigJS/zig.js:293-316 | tracked hands are reported ones; all of them when hands of no user are let in, and always those of a user; a hand keeps its owner |
| `TrackingLaws.BookExactly` | Samples/NewZigJS/zig.js:293-316 | a hand is tracked after a frame exactly if it was and is reported, or an entry lets it in; that entry says whose it is |
| `Tracking.RunsAreGrounded` | Samples/NewZigJS/zig.js:267-316 | over all runs every reported user is tracked, and every tracked user is reported or owns a tracked hand |
| `Tracking.HandOutlivesUser` | Samples/NewZigJS/zig.js:267-316 | a run after which a tracked hand belongs to an untracked user |
| `Tracking.UserGoesWithOneOfTwoHands` | Samples/NewZigJS/zig.js:251-265 | a run in which a user that is not reported goes with one of its two hands, while the other stays |
| `Tracking.RunsPairFakes` | Samples/NewZigJS/zig.js:226-265 | while no reported id is a number given out in the run, fake users and the hands that made them are in bijection after every run |
| `Tracking.SmallIdsPairFakes` | Samples/NewZigJS/zig.js:226-265 | in particular while reported ids stay below 1337 |
| `Tracking.NextFakeCounts` | Samples/NewZigJS/zig.js:226-265 | over all runs the next fake id is 1337 plus the number of hands of no user that were let in |
| `TrackingLaws.FakesAreCounted` | Samples/NewZigJS/zig.js:226-265 | as many fake ids are given as there are entries that let in a hand of no user |
| `TrackingLaws.FirstFakes` | Samples/NewZigJS/zig.js:226-265 | nothing is tracked at first, and two hands of no user get 1337 and 1338 |
| `Tracking.CollidesExactly` | Samples/NewZigJS/zig.js:226-265 | a hand of no user gets the number 1337 plus the count of such hands before it, and lands on a tracked user exactly if that number is reported, or kept from before, or named by an earlier entry |
| `Tracking.FakesAreNotReused` | Samples/NewZigJS/zig.js:357-363 | a fake id that was given out and is no longer tracked is tracked again only if a frame names it |
| `Tracking.FakesCanCollide` | Samples/NewZigJS/zig.js:355-363 | a run in which a real user has an id of the fake range and gets the hand of no user |
| `Tracking.EventsAlternate` | Samples/NewZigJS/zig.js:202-224 | the new and lost events of each user alternate, starting with new, and the last is new exactly while it is tracked |
| `SizzleCache.DirNodeCheck` | Samples/prototype.js:4831-4863 | in both directions every slot gets the answer of the walk without marks exactly if no slot is blind, and the first blind slot gets a wrong one; every changed mark carries the number of the search |
| `SizzleCache.WalkAnswers` | Samples/prototype.js:4843-4862 | one walk of the search by names, with the marks of the earlier slots, gives the right answer exactly if its slot is not blind: its first hit is the node of an earlier slot and no mark lies in between |
| `SizzleCache.BlindInOrder` | Samples/prototype.js:4832-4864 | for slots in document order some slot is blind exactly if the first hit of some slot is the node of another |
| `SizzleCache.ParentsAreExact` | Samples/prototype.js:4304-4313 | towards the parents, and in XML, no slot is blind |
| `SizzleCache.SiblingIsMissed` | Samples/prototype.js:4314-4323 | for two paragraphs side by side the search for later siblings of a paragraph does not find the first of them |
| `SizzleCache.DirCheck` | Samples/prototype.js:4865-4908 | the slots are those of the rounds, which follow the marks that nested searches overwrite; so every slot gets the nearest ancestor, or earlier sibling, element that is or matches the target, whatever is overwritten, if no slot is exposed; when a node is looked for, exactly if none is blind; every changed mark carries a number of the search or of those nested in it |
| `SizzleCache.RoundsAreRight` | Samples/prototype.js:4867-4908 | whatever nested searches overwrite, every slot before the first exposed one gets its answer |
| `SizzleCache.QuietRounds` | Samples/prototype.js:4867-4908 | if nothing is overwritten, every slot up to the first blind one gets its answer, and that one a wrong one |
| `SizzleNoise.ExactOverNoise` | Samples/prototype.js:4867-4908 | a search for a selector answers every slot under all that nested searches can overwrite exactly if no slot is exposed |
| `SizzleCache.WalkNames` | Samples/prototype.js:4838-4858 | one walk stops at a mark, a hit or the end; it passes and marks exactly the nodes before that |
| `SizzleCache.WalkNodes` | Samples/prototype.js:4872-4902 | one walk with a nested search at every element follows the marks, its own, those of earlier slots and those overwritten, exactly as the function of one turn |
| `SizzleCache.Engine.Combine` | Samples/prototype.js:4304-4323 | the descendant combinator under a new number answers every slot as the walk without marks; that for later siblings, with a name or a node, exactly if no slot is blind, and with a selector as the rounds determine; every changed mark carries a number given out during the call |
| `SizzleCache.NameAnswer` | Samples/prototype.js:4838-4858 | the right answer of a slot is the node of the name to which a path leads from the node of the slot with no other of that name before it, and none if there is no path |
| `SizzleCache.MatchAnswer` | Samples/prototype.js:4872-4902 | the same for the first element that matches a selector |
| `SizzleCache.NodeAnswer` | Samples/prototype.js:4872-4902 | the answer for a node is yes exactly if it is an element and a path leads to it |
| `SizzleCache.Engine.NthChildFilter` | Samples/prototype.js:4377-4390 | the filter under a new number keeps exactly the elements that pass, whatever indices earlier searches left in children |
| `SizzleCache.NthChild` | Samples/prototype.js:4544-4569 | for a child the test holds exactly if some n >= 0 has a*n+b equal to one more than the number of elements before it among the children; for an element without a parent, by the index left in it; cached indices stay equal to recomputed ones |
| `SizzleCache.NthExactly` | Samples/prototype.js:4562-4567 | for all signs of a and b the test on remainder and quotient holds exactly for members of the progression |
| `SizzleCache.NumberChildren` | Samples/prototype.js:4554-4561 | every element child gets one more than the number of element children before it as its index, and no other node changes its index |
| `SizzleCache.PositionCounts` | Samples/prototype.js:4554-4561 | the position of an element among the children is one more than the number of elements before it |
| `SizzleCache.PassesByPlace` | Samples/prototype.js:4544-4569 | a child passes exactly if that is a*n+b for some n >= 0 |
| `SizzleCache.PassesByIndex` | Samples/prototype.js:4544-4569 | an element without a parent passes the test for all positions, and else exactly if it has been left an index a*n+b |
| `SizzleCache.FilterNth` | Samples/prototype.js:4181-4198 | the list is filtered in order, with or without negation |
| `SizzleCache.KeptInOrder` | Samples/prototype.js:4181-4198 | a list is filtered piece by piece |
| `SizzleCache.KeptAlone` | Samples/prototype.js:4181-4198 | an element is kept exactly if it passes by its place or, if negated, does not |
| `QueryString.ToQueryString` | Samples/prototype.js:1293-1309 | the printed string is the encoded pairs joined by &, arrays spread over one pair an element |
| `QueryLaws.PiecesExactly` | Samples/prototype.js:1288-1309 | undefined prints the key alone, null nothing after the sign, text and other values their encoding, an array one pair an element and another object nothing |
| `QueryString.ToQueryParams` | Samples/prototype.js:624-643 | the parsed hash, or the error of a malformed escape, of the query part of any string, split at any separator; what is stripped, cut off, split and decoded is given by the laws below, and a key and a value without percent signs come back as written |
| `QueryLaws.PairComesBack` | Samples/prototype.js:624-643 | a key and a value that mean themselves, also with plus signs and further equality signs, come back as written |
| `QueryLaws.StripExactly` | Samples/prototype.js:591-593 | what is stripped is white space, and none is left at either end |
| `QueryLaws.SpaceExactly` | Samples/prototype.js:591-593 | the white space of ECMAScript, character by character |
| `QueryLaws.QueryPartIsLeftmost` | Samples/prototype.js:625 | the query part is what the pattern captures where it first matches, and it matches nowhere before |
| `QueryLaws.SplitFirst` | Samples/prototype.js:628 | the first piece ends where the separator first occurs, and the rest is split alike |
| `QueryLaws.SplitNone` | Samples/prototype.js:628 | text without the separator is one piece |
| `QueryLaws.PieceExactly` | Samples/prototype.js:629-640 | a piece is the key before its first equality sign and the value after it, both decoded, or an error if either is malformed; without the sign there is no value, without a key nothing |
| `QueryLaws.AddedExactly` | Samples/prototype.js:635-639 | a new key has the value alone, a known one its values and the new one, an inherited one what it inherits and the new one; other keys stay |
| `QueryLaws.QueryOfPieces` | Samples/prototype.js:624-643 | text with nothing to strip or cut off is split at the ampersands |
| `QueryString.ParsePrinted` | Samples/prototype.js:624-643 | parsing what was printed, for every hash: what comes back for every key |
| `QueryString.ParseJoined` | Samples/prototype.js:624-643 | the same when the printed pairs are joined with any other separator that cannot be mistaken for a part of them |
| `QueryString.RoundTrip` | Samples/prototype.js:1288-1309 | parsing what was printed gives the hash back exactly if every key is non-empty and not inherited and every value is a string, undefined or an array of two or more of these |
| `QueryString.QueryPartOfUrl` | Samples/prototype.js:625 | in an address without an earlier # the query is what stands between the last ? and the fragment |
| `QueryString.SplitJoin` | Samples/prototype.js:628 | splitting at a separator undoes joining pieces that do not contain its first character |
| `QueryString.JoinSplit` | Samples/prototype.js:628 | joining undoes splitting, for every text and separator |
| `QueryString.PieceIsParsed` | Samples/prototype.js:629-640 | one printed pair is parsed back to its key and value; a pair with an empty key is skipped |
| `PercentEncoding.DecodeEncode` | Samples/prototype.js:630-633 | decoding undoes percent-encoding (section 2.1 of RFC 3986, over UTF-8) for all text |
| `PercentLaws.DecodeExactly` | Samples/prototype.js:630-633 | text decodes to t exactly if it consists of what stands for the characters of t, a character other than the percent sign or the escapes of its UTF-8 bytes in digits of either case; it is an error exactly if it stands for no text |
| `PercentLaws.DecodeVerbatim` | Samples/prototype.js:630-633 | text without percent signs, plus signs included, decodes to itself, also in front of other text |
| `PercentLaws.Utf8Exactly` | Samples/prototype.js:630-633 | the bytes of a character are its shortest form by section 3 of RFC 3629, and only they are |
| `PercentLaws.PlainExactly` | Samples/prototype.js:1290-1295 | the characters that stay as they are, one by one |
| `PercentLaws.EncodeEscaped` | Samples/prototype.js:1290-1295 | any other character becomes its bytes, each a percent sign and two digits in upper case |
| `PercentEncoding.Utf8RoundTrip` | Samples/prototype.js:630-633 | the UTF-8 bytes of every character decode to it |
| `PercentEncoding.EncodedIsPlain` | Samples/prototype.js:1295 | encoded text contains no separator, no mark that ends a query and no space |
| `Base64.DecodeEncode` | projects/ZigJS/Sensor.h:60-66 | decoding by section 4 of RFC 4648 undoes the encoding, for whole groups of three bytes |
| `MapLaws.EncodeAt` | projects/ZigJS/Sensor.h:60-66 | the four characters of a group carry its three bytes, the first one highest |
| `MapLaws.Vectors` | projects/ZigJS/Sensor.h:60-66 | test vectors of section 10 of RFC 4648 |
| `Base64.EncodeTriplet` | projects/ZigJS/Sensor.h:60-66 | the four characters written by shifts, masks and ors are the encoding of the three bytes, and no other position changes |
| `Base64.BitFields` | projects/ZigJS/Sensor.h:62-65 | the four index expressions on unsigned bytes are the six-bit groups of the triplet |
| `Base64.Letter` | projects/ZigJS/Sensor.cpp:38 | the string constant agrees with Table 1 of RFC 4648 |
| `SensorMaps.PushWord` | projects/ZigJS/SensorOpenNI.cpp:660-676 | one pixel moves the three-state stream on: what is in the buffer and carried is the bytes of all pixels so far |
| `SensorMaps.EncodeMap` | projects/ZigJS/SensorOpenNI.cpp:655-677 | for any size and integer ratios with a pixel count divisible by three, the buffer is the encoding of the little-endian bytes of the sampled pixels in row order; every position is written once, in order, and the write index ends at the end of the buffer |
| `MapLaws.PixelOfMap` | projects/ZigJS/SensorOpenNI.cpp:655-677 | the two decoded bytes of output pixel x, y, the low one first, rebuild what is taken from the source pixel x steps along the row y steps down |
| `SensorMaps.RatiosFit` | projects/ZigJS/SensorOpenNI.cpp:640-641 | with ratios that are integer quotients every read stays inside the source |
| `SensorMaps.EncodeBoth` | projects/ZigJS/SensorKinectSDK.cpp:496-524 | the loop that fills both buffers fills each as the loop for it alone would, every position once |
| `SensorMaps.ReadKinectMaps` | projects/ZigJS/SensorKinectSDK.cpp:436-532 | a map that is asked for is the encoding of depth (word >> 3) or user label (table at word & 7) of every sampled pixel, whether or not the other is asked for; one that is not asked for is untouched |
| `MapLaws.DepthExactly` | projects/ZigJS/SensorKinectSDK.cpp:454 | the depth is the upper thirteen bits |
| `MapLaws.LabelExactly` | projects/ZigJS/SensorKinectSDK.cpp:436-442 | the label is 0 for 0 and 7 in the lower three bits, and else the tracking id of that user, cut to sixteen bits |
| `SensorMaps.EncodeImage` | projects/ZigJS/SensorOpenNI.cpp:688-699 | the positional writes give the encoding of the sampled RGB bytes, for three and for four source bytes a pixel; every position is written once |
| `MapLaws.PixelOfImage` | projects/ZigJS/SensorOpenNI.cpp:688-699 | the three decoded bytes of output pixel x, y are those of the source pixel x steps along the row y steps down |
| `SensorMaps.EncodeImageRow` | projects/ZigJS/SensorKinectSDK.cpp:550-560 | one row of the image loop continues the encoding of the rows before |
| `SensorMaps.ImageFits` | projects/ZigJS/SensorOpenNI.cpp:683-690 | every read of the image loop stays inside the source |
| `FramePump.Pump.ReadFrame` | projects/ZigJS/ZigJS.cpp:41-116 | one tick: opening is tried exactly in the first sensorless tick and then in every 451st; a listener that stays gains a status exactly if it changed, each map exactly if it is wanted and a connected sensor has new data, and a frame exactly with such data, in this order and each once; one that raises gains the calls before that, and goes; one that is gone gains nothing, and goes; the others keep their order; status and sensor agree afterwards |
| `FramePump.Pump.NotifyListeners` | projects/ZigJS/ZigJS.cpp:77-114 | the loop that erases from the list it runs over visits every listener once and keeps exactly those that stay, in order |
| `FramePump.Pump.Notify` | projects/ZigJS/ZigJS.cpp:78-112 | a listener gets the calls of the tick, told apart call by call, up to the first that raises; it stays exactly if it is there and none raises |
| `FramePump.GainsExactly` | projects/ZigJS/ZigJS.cpp:87-102 | what a listener gains, told by which calls are among it and their order, is what it receives of the calls of the tick |
| `FramePump.WholeIsOne` | projects/ZigJS/ZigJS.cpp:87-102 | only one list holds the calls that are due in the order in which they come |
| `FramePump.Pump.AddListener` | projects/ZigJS/ZigJS.cpp:26-30 | a new listener goes to the end of the list |
| `FramePump.Pump.SetStreams` | projects/ZigJS/ZigJS.cpp:35-40 | the three streams are chosen by name, and nothing else changes |
| `FramePump.StatusesAlternate` | projects/ZigJS/ZigJS.cpp:87-89 | the statuses a listener hears alternate, starting with the opposite of the status at the time it was added |
| `FramePump.ReceivedIsProper` | projects/ZigJS/ZigJS.cpp:87-102 | in every tick a listener hears a status only when it changes, and frames and maps only while the sensor is connected, even when it raises half-way |
| `FramePump.OneTickLess` | projects/ZigJS/ZigJS.cpp:54-67 | the counter passes the limit exactly once per 451 sensorless ticks, beginning with the first |

## Left out

- Sylvester: nested arrays as operands, the tolerance-based comparisons, rank and other functions of the file.
- Rounding: all geometry and linear algebra is over exact reals.
- EarClipping.Triangulate: glyph outlines, holes and the fonts around it.
- SceneGraph: several scenes, and cycles, on which the loop to the root does not end.
- SceneGraph.Scene.InitWebGLObjects: creating buffers; the number of buffers of an object, and whether it draws itself, are fixed.
- ControlLists: session and frame updates, which pass through the lists without changing them.
- Engagement: the constructor argument that names an engaged user and the reset method; both use misspelt fields (`this.Controls`, `this.userTracker`), so the first adds nothing and the second raises.
- Engagement.EngageSingleSession.AddOwn: lists nested in the list of a user, other than the shared one; nesting is covered below the shared controls.
- UserTracking.UserTracker.AddControl: the same.
- Engagement: one application control in two lists.
- UserTracking.UserTracker.UpdateHands: turning the position of a hand around its user, which needs trigonometric functions, and full-body data.
- UserTracking.UserTracker.DoUpdate: a reported user with id 0, which the manager cannot tell from nobody; user ids are natural numbers.
- Two-user engagement, and the fader, push and swipe detectors: easy members only.
- SizzleCache.FilterNth: filtering in place; the other child filters.
- SizzleCache: parsing selectors and regular expressions; a selector is given by the nodes it matches, a progression by its two numbers.
- QueryString.ToQueryString: the text of a property that every object inherits, which depends on the engine; the model prints its name.
- QueryString.ToQueryParams: regular expressions as separators; a parsed key `__proto__`, which is treated as any other inherited name although assigning it sets the prototype; strings with unpaired surrogates, which cannot be encoded.
- SensorMaps.EncodeMap: the OpenNI label loop takes its row stride from the depth map, so it is covered where both maps have the same width.
- SensorMaps: the sensor libraries, coordinate conversion, JSON output and watermarks.
- FramePump.Pump.ReadFrame: exceptions of other kinds, which leave the function, and listeners that add listeners while they are called.
- Rendering, shaders, loaders, DOM, Ajax, installers and build scripts.
