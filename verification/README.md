# Commelec: verified models

Commelec lets resource agents of an electrical grid describe themselves to a grid agent by *advertisements*:
messages that hold sets of setpoints, belief functions and cost functions as expressions. This project models the
parts of the interpreter and of the message builders in which most can go wrong, and proves what they are for.

* **Linear programming** (`Vectors`, `Elimination`, `LpTheory`, `LinkedOrder`, `Arcs`, `Wedges`, `Store`,
  `LinProgParts`, `BaseCase`, `LinProg`, `BoundingBox`). Hohmeyer's implementation of Seidel's incremental algorithm
  on homogeneous half-spaces, with its linked list that nested calls reorder while the outer loop walks over it, its
  work area and its base case on the projective line; and the bounding box of a convex polygon made from four such
  programs.
* **Projections** (`Projections`, `Dykstra`, `RectHull`). Nearest points of basic sets, alternating projections,
  Dykstra's algorithm with its conservation law, its descent and its certificate, and bounding boxes of sets.
* **Expressions** (`Wrappers`, `Expressions`, `References`, `Occurrences`, `Derivatives`, `Interpreter`,
  `VisitCounter`, `Circles`, `CaseSelection`, `SetTests`, `Calculus`, `DerivativeTheorems`, `Slopes`,
  `LocalDerivatives`, `LetBinding`, `Polynomials`). The evaluator with its budget of visits, and what becomes of that
  where sets are tested, the selection of a case, partial derivatives, the collection of names, the C++ interface that
  builds expressions and the mixed-radix encoding of polynomials.
* **Advertisements** (`PVAdvertisement`, `Beliefs`). The belief of a photovoltaic resource and the beliefs of devices
  with discrete setpoints, as ordered overlapping cases.
* **Run-length code** (`RunLength`). The two ends of the code that a server in C++ and a client in Python share.

Code that changes things in place is modelled by methods over arrays, or over the fields of a class, with the loops of
the source; what the methods compute is stated by functions and predicates, about which the lemmas speak.
`dafny verify dfyconfig.toml` checks everything.

Where the source does not do what it promises, the model keeps the code, gives an input that shows it, and proves
when the code is right:

| what | when it is right | an input for which it is not |
|---|---|---|
| the derivative of a square | `SquareDerivativeExact`, `UnaryRuleExact` | `SquareDerivativeWrong` |
| the derivative of an absolute value, a minimum or a maximum at a kink | `AbsAtZero`, `Level` | `KinkOfAbs` |
| the derivative of round, floor and ceil, which are passed over | `UnaryRuleExact` | `FloorOfHalf` |
| the derivative of a polynomial that lists a variable twice | `PolynomialDerivativeExact`, `PolynomialDerivativeEverywhere` | `PolynomialDerivativeWrong` |
| the encoding of a monomial that repeats a factor | `DecodeExact` | `RepeatedFactor` |
| the cosine | `CosIsSine` | `CosOfZero` |
| the projection onto a ball of negative radius, and its box | `BallFormulaExact`, `DiskExact` | `NegativeRadius` |
| the bounding box of an intersection with two polytopes | `MeetHull`, `SecondPolytopeExact` | `SecondPolytopeMisses` |
| setpoints within the range of a rounding belief | `RoundBeliefRange` | `RoundedPastRange` |
| the corner of a photovoltaic belief | `DeltaExact` | `CornerLeaves`, `NegativeGreatestPower` |
| a minimum of a linear program in the plane | `RefusedExactly` | `MinimumRefused` |
| the guard against circular references | `EndlessExactly`, `ExpressionsEnd` | `SelfReference`, `SelfIntersection`, `CaseNeverEnds` |
| a name that is used twice | `KeptExactly`, `CollectedExactly` | `NameUsedTwice` |
| an expression that is given two names | `SurvivorsExactly` | `OuterNameLost` |

## Model

| member | source | states |
|---|---|---|
| `LinProg.Linprog` | externals/seidel_lp/linprog.c:65-225 | The recursive solver, for every dimension: when it does not report infeasibility the optimum is nonzero and satisfies every listed plane, and no feasible point is better as long as plane 0 is the denominator; INFEASIBLE means that no point satisfies the planes with plane 0 strict. Only the optimum and the work area are written, and the list is permuted before the terminal marker only. |
| `LinProg.AddPlanes` | externals/seidel_lp/linprog.c:141-223 | The main loop keeps, while nested calls reorder the list under it, that the program is solved for exactly the planes walked over so far; it ends because the walk never goes back. |
| `LinProg.Step` | externals/seidel_lp/linprog.c:141-222 | One iteration adds exactly one plane to those solved for and steps to the plane that followed before any reordering. |
| `LinProg.AddPlane` | externals/seidel_lp/linprog.c:150-204 | An optimum on the wrong side of a plane is replaced by one that solves the program with that plane; otherwise it is kept, and still optimal. |
| `LinProg.SolveOnPlane` | externals/seidel_lp/linprog.c:154-203 | Solving within the plane and lifting the solution back solves the program with the plane added, or shows it to be infeasible. |
| `LinProg.InnerProblem` | externals/seidel_lp/linprog.c:136-187 | The nested call works on a buffer laid out inside the work area of the outer one and leaves the outer problem and its optimum untouched. |
| `LinProg.ProjectPlanes` | externals/seidel_lp/linprog.c:158-176 | The loop over the list before the plane writes, for each earlier plane, its projection into the new buffer. |
| `LinProg.ProjectRow` | externals/seidel_lp/linprog.c:166-174 | One plane is projected into the row of the new buffer that bears its index. |
| `LinProg.ProjectObjective` | externals/seidel_lp/linprog.c:177-184 | Numerator and denominator are projected as the planes are; with a zero denominator, the numerator orthogonally onto the plane, and the denominator stays zero. |
| `LinProg.LiftSolution` | externals/seidel_lp/linprog.c:189-203 | After back substitution and normalising, the stored optimum solves the program with the plane added. |
| `LinProg.LiftBack` | externals/seidel_lp/linprog.c:189-200 | Back substitution leaves, in place of the optimum, a positive multiple of the inner optimum lifted onto the plane, and writes nothing else. |
| `LinProg.FindPivot` | externals/seidel_lp/linprog.c:155-156 | A plane that the optimum violates has a coefficient that is not zero to divide by. |
| `LinProg.StartOptimum` | externals/seidel_lp/linprog.c:128-133 | The run starts from the unconstrained minimum, or from the optimum handed in for the planes before istart. |
| `LinProg.WorkCellsClosedForm` | externals/seidel_lp/linprog.c:107 | The space that all levels of recursion carve off adds up to exactly (max_size+3)*(d+2)*(d-1)/2. |
| `LinProg.InnerLaid` | externals/seidel_lp/linprog.c:135-140 | The four buffers carved from the work area are disjoint from each other, from the outer buffers and from the rest of the work area, which suffices for the next level. |
| `LinProg.InnerKept` | externals/seidel_lp/linprog.c:135-187 | What an inner call may write lies within the work area of the outer call. |
| `LinProg.SolvedStep` | externals/seidel_lp/linprog.c:154-203 | What a solution of the projected program says about the program itself: feasible, optimal and nonzero after lifting. |
| `LinProg.InfeasibleSolved` | externals/seidel_lp/linprog.c:201-203 | When the projected program is infeasible, so is the program with the plane. |
| `LinProg.SatisfiedStep` | externals/seidel_lp/linprog.c:151-154 | A plane that the optimum satisfies changes neither its feasibility nor its optimality. |
| `LinProg.WalkAfterInner` | externals/seidel_lp/linprog.c:186-205 | A nested call that permutes what lies before the current plane leaves the plane and everything behind it in place. |
| `LpTheory.InfeasibleStep` | externals/seidel_lp/linprog.c:201-203 | If the optimum violates a plane and nothing feasible lies on it, nothing feasible satisfies it: every feasible segment from the optimum would cross the plane. |
| `LpTheory.FeasibleStep` | externals/seidel_lp/linprog.c:189-200 | A lifted feasible point of the projected planes satisfies all planes. |
| `LpTheory.OptimalStep` | externals/seidel_lp/linprog.c:151-205 | If the optimum violates a plane, the best point on the plane is the best point that satisfies it. |
| `LpTheory.OptimalAt` | externals/seidel_lp/linprog.c:151-205 | Where the segment from the old optimum to a feasible point crosses the plane, the objective is no worse than at that point. |
| `LpTheory.InfeasibleAt` | externals/seidel_lp/linprog.c:201-203 | A feasible point beyond the plane yields a feasible point on the plane. |
| `LpTheory.CrossingBetween` | externals/seidel_lp/linprog.c:151-205 | The linear-fractional objective at the crossing lies between its values at the ends of the segment: no worse than at the point beyond, and the old optimum is no worse than it. |
| `LpTheory.LiftFeasible` | externals/seidel_lp/linprog.c:189-192 | Feasibility within the plane and in the space correspond, upwards. |
| `LpTheory.LowerFeasible` | externals/seidel_lp/linprog.c:157-176 | And downwards, for points of the plane. |
| `LpTheory.FirstStep` | externals/seidel_lp/linprog.c:141-222 | If the unconstrained minimum violates plane 0, which is the denominator, then the objective is constant and every point is optimal. |
| `LpTheory.PositiveMultiple` | externals/seidel_lp/linprog.c:191-200 | Normalising an optimum by a positive factor leaves it feasible, optimal and nonzero. |
| `Elimination.Duality` | externals/seidel_lp/linprog.c:47-60 | Projecting a plane and lifting a point preserve the dot product: projecting into a plane loses nothing about its points. |
| `Elimination.UpOnPlane` | externals/seidel_lp/vector_up.c:14-29 | A lifted point lies on the plane. |
| `Elimination.WithinOrthogonal` | externals/seidel_lp/linprog.c:31-48 | What vector_down takes a vector to is orthogonal to the normal, and has the same product with every point of the plane. |
| `Elimination.UpSurjective` | externals/seidel_lp/vector_up.c:14-29 | Every point of the plane is the lift of what remains of it. |
| `Elimination.UpNonzero` | externals/seidel_lp/vector_up.c:14-29 | Lifting a point that is not zero gives one that is not zero. |
| `LinProgParts.PlaneDown` | externals/seidel_lp/linprog.c:47-60 | Writes the projection of a plane, in place and nothing else. |
| `LinProgParts.VectorUp` | externals/seidel_lp/vector_up.c:14-29 | Writes the lift of a point, with the running update of the eliminated coordinate, in place and nothing else. |
| `LinProgParts.VectorUpAt` | externals/seidel_lp/vector_up.c:20-27 | One round of either loop: a coordinate is in place and the accumulator holds one more term. |
| `LinProgParts.VectorDown` | externals/seidel_lp/linprog.c:31-48 | Writes the orthogonal projection of a vector onto the plane, without one coordinate, in place and nothing else. |
| `LinProgParts.FindIMax` | externals/seidel_lp/linprog.c:271-285 | Returns an index of a coefficient of greatest absolute value. |
| `LinProgParts.ViolatedHasPivot` | externals/seidel_lp/linprog.c:154-156 | That coefficient is not zero if some point violates the plane. |
| `LinProgParts.Unit` | externals/seidel_lp/linprog.c:18-30 | Reports a zero vector, and otherwise makes the vector a positive multiple of itself. |
| `LinProgParts.ScaleInPlace` | externals/seidel_lp/linprog.c:192-200 | Multiplies every coordinate in place by one factor. |
| `LinProgParts.SteepestInto` | externals/seidel_lp/linprog.c:249-261 | Writes the direction of steepest descent, in one pass over the coordinates. |
| `LinProgParts.SteepestMinimal` | externals/seidel_lp/linprog.c:244-269 | No point of any dimension has a smaller objective than the direction of steepest descent. |
| `LinProgParts.ConstantObjective` | externals/seidel_lp/linprog.c:255-266 | When there is no such direction the objective is the same everywhere. |
| `LinProgParts.LpNoConstraints` | externals/seidel_lp/linprog.c:244-269 | Writes a nonzero minimum of the unconstrained problem, and reports MINIMUM or AMBIGUOUS. |
| `LinkedOrder.MoveToFront` | externals/seidel_lp/linprog.c:227-242 | The list stays doubly linked with plane 0 first and exactly the given plane moved to second place; the result is the plane now in its position, whose successor is the old successor. |
| `LinkedOrder.Relinked` | externals/seidel_lp/linprog.c:232-240 | Six pointer writes turn the links of one order into the links of the other. |
| `LinkedOrder.MovedPermutes` | externals/seidel_lp/linprog.c:227-242 | The moved order has the same planes up to the position, and the same order behind it. |
| `LinkedOrder.Advance` | externals/seidel_lp/linprog.c:205-222 | One step of a walk that may move the current plane: one more plane is behind, in the order as it was. |
| `LinkedOrder.WalkOnBeside` | externals/seidel_lp/lp_base_case.c:213-250 | With the half-line that the walk started from counted separately, one step adds just the plane at which the walk stands. |
| `LinkedOrder.AtInjective` | externals/seidel_lp/linprog.c:141 | Different positions hold different planes, so that the marker ends the walk at the right one. |
| `Wedges.Wedge` | externals/seidel_lp/lp_base_case.c:188-270 | The feasible arc, exactly: INFEASIBLE if and only if no nonzero vector satisfies all half-lines, UNBOUNDED if and only if all half-lines are zero, and otherwise the feasible vectors are those between the bounds, or, when degenerate, the two rays. |
| `Wedges.WalkArc` | externals/seidel_lp/lp_base_case.c:213-250 | The loop keeps the arc exact for the half-lines seen while offending planes are moved to the front. |
| `Wedges.WalkRays` | externals/seidel_lp/lp_base_case.c:251-268 | The second loop keeps the set of feasible rays exact. |
| `Wedges.WedgeStep` | externals/seidel_lp/lp_base_case.c:215-248 | One half-line cuts the arc at the right end, leaves it, degenerates it to its rays, or empties it. |
| `Wedges.DegenerateStep` | externals/seidel_lp/lp_base_case.c:252-267 | One half-line removes the rays that violate it. |
| `Wedges.FirstNonzero` | externals/seidel_lp/lp_base_case.c:201-212 | Finds the first half-line that is not zero, scaled by a positive factor; all before it are zero. |
| `Wedges.Unit2` | externals/seidel_lp/unit2.c:5-13 | Normalises by some positive factor; reports zero. |
| `Arcs.CutClockwise` | externals/seidel_lp/lp_base_case.c:218-224 | Cutting an arc by a half-line that only its clockwise end violates moves that end to the half-line's boundary. |
| `Arcs.CutCounterClockwise` | externals/seidel_lp/lp_base_case.c:225-231 | The same for the other end. |
| `Arcs.KeepsArc` | externals/seidel_lp/lp_base_case.c:215-236 | A half-line that both ends satisfy, one strictly, is satisfied by the whole arc. |
| `Arcs.MissesArc` | externals/seidel_lp/lp_base_case.c:232-233 | A half-line that both ends violate is violated by the whole arc. |
| `Arcs.LeavesCounterClockwiseRay` | externals/seidel_lp/lp_base_case.c:234-245 | A half-line that touches the arc in one end leaves the ray of that end. |
| `Arcs.LeavesBothRays` | externals/seidel_lp/lp_base_case.c:234-245 | A half-line along a half circle, from outside, leaves the rays of its two ends. |
| `BaseCase.LpBaseCase` | externals/seidel_lp/lp_base_case.c:41-109 | Solves the program on the projective line: feasible and optimal, or infeasible, with the list reordered before the marker only. |
| `BaseCase.LpMinLinRat` | externals/seidel_lp/lp_base_case.c:110-187 | Chooses a feasible vector; when half-line 0 is the denominator, so that no pole lies inside, it minimises the linear-fractional objective, poles at the ends included. |
| `BaseCase.DependentCase` | externals/seidel_lp/lp_base_case.c:67-93 | With a zero denominator the vector chosen minimises the linear objective among the feasible vectors of its length, given ends of the same length; with dependent numerator and denominator it is optimal as any other. |
| `BaseCase.EndIsLeast` | externals/seidel_lp/lp_base_case.c:83-91 | A linear objective over an arc that does not contain the direction opposite to it is least at one of the ends. |
| `BaseCase.ArcOptimum` | externals/seidel_lp/lp_base_case.c:134-153 | On an arc without a pole inside, the better end is optimal. |
| `BaseCase.ChoiceOptimal` | externals/seidel_lp/lp_base_case.c:110-187 | Where half-line 0 is the denominator, the vector chosen is optimal among the feasible ones. |
| `BaseCase.ChoiceFeasible` | externals/seidel_lp/lp_base_case.c:110-187 | And belongs to it. |
| `BaseCase.PolesAtBothBounds` | externals/seidel_lp/lp_base_case.c:177-186 | When both ends are poles, the sign of the cross product decides. |
| `BaseCase.InteriorMinimum` | externals/seidel_lp/lp_base_case.c:78-82 | The opposite of the numerator, when it lies in the arc, minimises the numerator among all vectors of its length. |
| `BoundingBox.ComputeAABB` | commelec-interpreter/boundingbox-convexpolygon.hpp:25-62 | Any box returned contains the polygon and each of its sides touches it; for a nonempty bounded polygon a box is returned. |
| `BoundingBox.SolveLp2` | commelec-interpreter/boundingbox-convexpolygon.cpp:18-75 | An answer is a point of least objective inside the constraints; an infeasible program has no point inside; a solution at infinity is reported only for an empty or unbounded inside and with a direction in which the inside never ends and the objective never increases; the last error never. |
| `BoundingBox.RefusedExactly` | commelec-interpreter/boundingbox-convexpolygon.cpp:58-67 | Of a nonempty inside, the solver's contract admits an answer at infinity exactly when there is a direction in which the inside never ends and the objective never increases. |
| `BoundingBox.MinimumRefused` | commelec-interpreter/boundingbox-convexpolygon.cpp:58-67 | An instance: a minimum that exists, of x over the half-plane x >= 0, may be refused for the direction of the y-axis. |
| `BoundingBox.RunLp` | commelec-interpreter/boundingbox-convexpolygon.cpp:21-51 | Filling the buffers, linking the planes in random order and calling the solver solves the homogeneous program. |
| `BoundingBox.LinkPlanes` | commelec-interpreter/boundingbox-convexpolygon.cpp:41-49 | The links written from a permutation are a doubly linked list of all planes, plane 0 first. |
| `BoundingBox.RandPerm` | externals/seidel_lp/randperm.c:11-23 | Whatever the random numbers, the result is a permutation. |
| `BoundingBox.WorkSize` | commelec-interpreter/boundingbox-convexpolygon.cpp:37 | The work area has exactly the size that the recursion uses. |
| `BoundingBox.BoundedMeansFinite` | commelec-interpreter/boundingbox-convexpolygon.cpp:58-67 | A nonempty bounded inside has no nonzero feasible point at infinity. |
| `BoundingBox.FiniteMinimum` | commelec-interpreter/boundingbox-convexpolygon.cpp:60-63 | Dividing a homogeneous optimum by its last coordinate gives a minimum. |
| `BoundingBox.SolvedMeans` | commelec-interpreter/boundingbox-convexpolygon.cpp:53-67 | What each status says about the points inside the constraints. |
| `BoundingBox.NormaliseRows` | commelec-interpreter/boundingbox-convexpolygon.hpp:40-43 | Every row becomes a positive multiple of itself. |
| `BoundingBox.FillRows` | commelec-interpreter/boundingbox-convexpolygon.hpp:32-38 | The buffer holds exactly the rows of A, each followed by its entry of b. |
| `BoundingBox.SidesMakeBox` | commelec-interpreter/boundingbox-convexpolygon.hpp:48-61 | The negated answers of the four mirrored programs are the extreme coordinates. |
| `BoundingBox.Mirrored` | commelec-interpreter/boundingbox-convexpolygon.hpp:45-55 | A point satisfies A x <= b exactly when its negative satisfies A x + b >= 0. |
| `BoundingBox.NoFailureAt` | commelec-interpreter/boundingbox-convexpolygon.cpp:53-74 | None of the four programs fails for a nonempty bounded polygon. |
| `Projections.Project` | commelec-interpreter/adv-interpreter.hpp:327-352 | The result lies in the set; it is the projection (at an obtuse angle with every point of the set) exactly when the point was a member or the set is not a ball of negative radius, and for such a ball it is the projection of the point on the other side of the centre. |
| `Projections.ProjectHalfSpace` | commelec-interpreter/adv-interpreter.hpp:465-472 | The formula for half-spaces is the projection; a half-space without a normal that is everything leaves the point alone. |
| `Projections.ProjectRectangle` | commelec-interpreter/adv-interpreter.hpp:406-423 | The loop that clamps each coordinate, with bounds in either order. |
| `Projections.ProjectBall` | commelec-interpreter/adv-interpreter.hpp:394-404 | The formula for balls, for any square root function: always a point of the ball, and the nearest exactly when the radius is not negative or the point was a member. |
| `Projections.BallFormulaExact` | commelec-interpreter/adv-interpreter.hpp:399-403 | For a point outside, the formula gives the nearest point exactly when the radius is not negative. |
| `Projections.NegativeRadius` | commelec-interpreter/adv-interpreter.hpp:399-403 | With a negative radius it gives a point of the ball that is not the nearest. |
| `Projections.MirroredProjection` | commelec-interpreter/adv-interpreter.hpp:399-403 | What it then gives is the nearest point to the start mirrored at the centre. |
| `Projections.IntervalObtuse` | commelec-interpreter/adv-interpreter-proj.cpp:23-27 | Clamping a number to an interval, as a projection. |
| `Projections.ProjectionNearest` | commelec-interpreter/adv-interpreter.hpp:318-330 | A projection in this sense is the nearest point of the set, and the only one. |
| `Projections.ProjectionApproaches` | commelec-interpreter/adv-interpreter.hpp:487-489 | Projecting brings a point nearer to every point of the set, by at least the square of the way. |
| `Projections.ProjectionFixesMembers` | commelec-interpreter/adv-interpreter.hpp:397-398 | Members are left where they are. |
| `Projections.ProjectionNonexpansive` | commelec-interpreter/adv-interpreter.hpp:385-423 | Two points are not further apart after projecting. |
| `Projections.Membership` | commelec-interpreter/adv-interpreter.hpp:207-269 | The tests of membership, coordinate by coordinate where the source does so. |
| `Projections.MembershipAll` | commelec-interpreter/adv-interpreter.hpp:255-283 | The greedy conjunction over a list of sets. |
| `Projections.AlternatingProjection` | commelec-interpreter/adv-interpreter.hpp:474-503 | A result is a member of all sets and, without balls of negative radius, no farther than the start from any common point; a start in all sets is returned at once. The projections of every round are returned as well: with an answer, the first common point among them is the result and the last one made; without, all permitted rounds are complete and none of their projections is a common point. |
| `Dykstra.Dykstra` | commelec-interpreter/adv-interpreter.hpp:505-562 | The routine returns its run along with its answer: sweeps one after the other, each projection made from where the one before it led, with the correction of the sweep before added. On convergence exactly the last sweep, of at most the permitted number, moved the iterate by less than the threshold, and the result is where that sweep began; otherwise all permitted sweeps have been made and none did. The point is the last projection plus all corrections, the projections lie in their sets, and, without balls of negative radius, each correction is normal to its set and nothing is farther than the start from any common point; without convergence the number of sweeps times the squared threshold is at most the number of sets times the squared distance to any common point. |
| `Dykstra.SweepAndTest` | commelec-interpreter/adv-interpreter.hpp:545-557 | It is one sweep from where the last one led; one without convergence gains at least the squared threshold over the number of sets. |
| `Dykstra.OneMoreSweep` | commelec-interpreter/adv-interpreter.hpp:543-559 | A sweep that moves the iterate by less than the threshold settles the run, any other one leaves it unfinished. |
| `Dykstra.Sweep` | commelec-interpreter/adv-interpreter.hpp:545-550 | A sweep keeps all invariants; the way back to its start is bounded by its steps. |
| `Dykstra.Step` | commelec-interpreter/adv-interpreter.hpp:546-549 | One projection keeps them. |
| `Dykstra.EmptyLists` | commelec-interpreter/adv-interpreter.hpp:526-532 | The lists before the first sweep. |
| `Dykstra.StepDescends` | commelec-interpreter/adv-interpreter.hpp:546-549 | The distance to a common point plus twice the pull of the corrections falls by at least the square of the step. |
| `Dykstra.StepBalances` | commelec-interpreter/adv-interpreter.hpp:546-549 | Conservation: what a projection takes from the iterate goes into the correction; the new correction is normal to the set. |
| `Dykstra.StepGains` | commelec-interpreter/adv-interpreter.hpp:546-549 | The descent, for all common points at once. |
| `Dykstra.Started` | commelec-interpreter/adv-interpreter.hpp:529-537 | Before the first sweep the invariants hold. |
| `Dykstra.PullNonNegative` | commelec-interpreter/adv-interpreter.hpp:543-559 | Seen from a common point every correction pulls outwards. |
| `Dykstra.NotFarther` | commelec-interpreter/adv-interpreter.hpp:543-559 | So every iterate is no farther than the start from any common point, and the squared steps are bounded. |
| `Dykstra.SweepDistance` | commelec-interpreter/adv-interpreter.hpp:554 | The squared distance that the convergence test measures is at most the number of sets times the squared steps of the sweep. |
| `Dykstra.Certificate` | commelec-interpreter/adv-interpreter.hpp:543-561 | At the last projection the angle between the start and any common point is bounded by the pull of the corrections. |
| `Dykstra.AgreementIsProjection` | commelec-interpreter/adv-interpreter.hpp:543-561 | When the projections of a sweep agree they are the nearest point of the intersection. |
| `RectHull.HullOf` | commelec-interpreter/adv-interpreter-recthull.cpp:23-104 | What box it is: of a point, ball, rectangle or polytope the tight one (corners exchanged for a ball of negative radius), of an intersection as stated for MeetHull; without balls of negative radius and lists of two polytopes the box contains the set. A box is found whenever there is one to be found. |
| `RectHull.MeetHull` | commelec-interpreter/adv-interpreter-recthull.cpp:106-196 | Without polytopes the box is the innermost of the boxes of the sets, side by side; with them, it is tight around the points that satisfy all polytopes and lie in the boxes of the other sets, so that each side touches one. A box is returned if there are sets, all but the polytopes have one, and, with polytopes, there is a common point and the polytopes, or some other set, are bounded; for no sets there is none. All of this with at most one polytope, whatever contents a second one leaves, and with any number of them if resizing kept the contents. Every common point lies in the box. |
| `RectHull.SecondPolytopeMisses` | commelec-interpreter/adv-interpreter-recthull.cpp:152-157 | Two half-planes and the unit square: contents for which the box returned misses the common corner (1, 1). |
| `RectHull.SecondPolytopeExact` | commelec-interpreter/adv-interpreter-recthull.cpp:152-194 | When an intersection lists two polytopes, there are contents and a box returned for them that misses a given common point exactly when the box of the other sets is more than a point, or, without other sets, when the polytopes have three rows or more together. |
| `RectHull.TwoRowsUnbounded` | commelec-interpreter/adv-interpreter-recthull.cpp:194 | Two constraints never have a tight box. |
| `RectHull.PolytopeHull` | commelec-interpreter/adv-interpreter-recthull.cpp:99-104 | The box of a polytope is tight, and is found if the polytope is nonempty and bounded. |
| `RectHull.DiskExact` | commelec-interpreter/adv-interpreter-recthull.cpp:76-81 | The box of a ball contains the ball exactly when the radius is not negative. |
| `RectHull.DiskTouches` | commelec-interpreter/adv-interpreter-recthull.cpp:76-81 | Each side of it touches the ball. |
| `RectHull.RectTouches` | commelec-interpreter/adv-interpreter-recthull.cpp:83-97 | The box of a rectangle has the rectangle's corners. |
| `RectHull.FinalConstraints` | commelec-interpreter/adv-interpreter-recthull.cpp:174-194 | Where no polytope got lost, the merged constraints hold exactly in all polytopes and the box of the other sets, and so in every common point. |
| `RectHull.GatheredPolytope` | commelec-interpreter/adv-interpreter-recthull.cpp:142-158 | The merged constraints stay equivalent to all polytopes seen, through the first of them, and through more if resizing kept the contents; the box of the other sets stays valid. |
| `RectHull.GatheredOther` | commelec-interpreter/adv-interpreter-recthull.cpp:160-168 | Intersecting boxes keeps all common points of the other sets. |
| `RectHull.CommonIsIntersection` | commelec-interpreter/adv-interpreter-recthull.cpp:167 | A point lies in the intersected box exactly when it lies in both. |
| `RectHull.InnermostPoints` | commelec-interpreter/adv-interpreter-recthull.cpp:160-172 | The innermost box has exactly the points that all boxes have. |
| `RectHull.FinalTight` | commelec-interpreter/adv-interpreter-recthull.cpp:174-194 | A tight box of the merged constraints is tight around the points of all polytopes and boxes. |
| `RectHull.FinalFindable` | commelec-interpreter/adv-interpreter-recthull.cpp:174-194 | With a common point, and bounded polytopes or another set, the merged constraints have one. |
| `RectHull.ExchangedTight` | commelec-interpreter/adv-interpreter-recthull.cpp:76-81 | With a negative radius the box has its corners exchanged, and with these put right it is tight. |
| `RectHull.BoxIsPolygon` | commelec-interpreter/adv-interpreter-recthull.cpp:177-188 | The rows added for the box describe the box. |
| `RectHull.PolygonConcat` | commelec-interpreter/adv-interpreter-recthull.cpp:185-188 | Constraints written below one another, as those of the other sets' box are, mean both. |
| `RectHull.TestMembership` | commelec-interpreter/adv-interpreter.hpp:154-263 | Membership of evaluated sets without references, with the greedy conjunction over an intersection; references are followed in VisitCounter. |
| `Interpreter.AdvFunc.Evaluate` | commelec-interpreter/adv-interpreter-eval.cpp:7-12 | An expression is evaluated exactly when it has an unfolding with all variables bound and at most 10000 nodes, also with references in circles, and then to what the unfolding denotes; each error is justified. |
| `Interpreter.AdvFunc.Eval` | commelec-interpreter/adv-interpreter-eval.cpp:21-50 | The counter grows by the size of the unfolding; on an error no unfolding fits into the rest of the budget. |
| `Interpreter.AdvFunc.EvalUnary` | commelec-interpreter/adv-interpreter-eval.cpp:83-121 | The same, for operations of one argument. |
| `Interpreter.AdvFunc.EvalBinary` | commelec-interpreter/adv-interpreter-eval.cpp:123-145 | The same, for operations of two arguments. |
| `Interpreter.AdvFunc.EvalList` | commelec-interpreter/adv-interpreter-eval.cpp:184-205 | The accumulating loops over list arguments give sum and product of the denotations. |
| `Interpreter.AdvFunc.EvalRef` | commelec-interpreter/adv-interpreter-eval.cpp:420-433 | A reference is what it refers to, one visit later. |
| `Interpreter.AdvFunc.EvalPolynomial` | commelec-interpreter/adv-interpreter-eval.cpp:352-391 | The loops over coefficients and variables compute the sum of the decoded terms, or of their derivatives. |
| `Interpreter.AdvFunc.EvalMonomial` | commelec-interpreter/adv-interpreter-eval.cpp:368-387 | The inner loop, with its early exit, computes the product of the factors, one of them derived. |
| `Expressions.MonomialVanishes` | commelec-interpreter/adv-interpreter-eval.cpp:378-382 | Leaving the loop early is right: a monomial without the variable has derivative zero. |
| `Expressions.RoundingExactly` | commelec-interpreter/adv-interpreter-eval.cpp:110-115 | floor, ceil and round are the integer below, above and nearest, halves away from 0. |
| `Expressions.ComparisonsExclude` | commelec-interpreter/adv-interpreter-eval.cpp:123-145 | Of the two comparisons exactly one holds; min and max are the two values. |
| `Interpreter.AdvFunc.EvalToVector` | commelec-interpreter/adv-interpreter.cpp:12-20 | The values of a list, in order, or an error exactly when they do not fit into the budget. |
| `Interpreter.AdvFunc.EvaluatePartialDerivative` | commelec-interpreter/adv-interpreter-eval.cpp:14-19 | For an expression with an unfolding, the result is decided by the number of visits that deriving it takes, and is what the rules of Derivatives give: LocalDerivatives.DerivativeNearby says where that is the derivative. |
| `Interpreter.AdvFunc.EvalPartialDerivative` | commelec-interpreter/adv-interpreter-eval.cpp:52-81 | The same, within the budget that is left. |
| `Interpreter.AdvFunc.DeriveUnary` | commelec-interpreter/adv-interpreter-eval.cpp:279-320 | The same, for operations of one argument; LocalDerivatives.UnaryRuleExact says when the rule is right. |
| `Interpreter.AdvFunc.DeriveBinary` | commelec-interpreter/adv-interpreter-eval.cpp:147-182 | The same, for operations of two arguments. |
| `Interpreter.AdvFunc.DeriveChoice` | commelec-interpreter/adv-interpreter-eval.cpp:165-172 | Of a minimum or maximum only the chosen argument is derived. |
| `Interpreter.AdvFunc.DeriveList` | commelec-interpreter/adv-interpreter-eval.cpp:207-239 | The double loop of the product rule, after the values have been evaluated once. |
| `Interpreter.AdvFunc.AllButOne` | commelec-interpreter/adv-interpreter-eval.cpp:228-232 | The inner loop multiplies by all values but one. |
| `Interpreter.AdvFunc.DerivePolynomial` | commelec-interpreter/adv-interpreter-eval.cpp:267-277 | Derives by the first occurrence of the variable. |
| `Interpreter.AdvFunc.DeriveRef` | commelec-interpreter/adv-interpreter-eval.cpp:322-335 | A reference is derived as what it refers to. |
| `Interpreter.ListTooLarge` | commelec-interpreter/adv-interpreter-eval.cpp:190-204 | If an argument does not fit, neither does the list. |
| `Interpreter.AdvFunc.FindReferences` | commelec-interpreter/adv-interpreter.cpp:71-107 | Every named expression that occurs in the expression is found under its name, every name found was known before or leads to an occurrence that bears it, and of several the last stays; fails exactly when there are too many nodes. |
| `Interpreter.AdvFunc.FindReferencesInList` | commelec-interpreter/adv-interpreter.cpp:92-95 | The same, for a list. |
| `Interpreter.AdvFunc.FindSetReferences` | commelec-interpreter/adv-interpreter.cpp:109-187 | The same, for the names of sets that occur in a set, and of the expressions that occur in a coordinate, centre, radius, bound, matrix row, right-hand side or intersected set. |
| `Interpreter.AdvFunc.FindReferencesBelow` | commelec-interpreter/adv-interpreter.cpp:118-151 | The same, for what a set consists of. |
| `Interpreter.AdvFunc.FindReferencesInBounds` | commelec-interpreter/adv-interpreter.cpp:131-137 | The same, for the bounds of a rectangle. |
| `Interpreter.AdvFunc.FindReferencesInRows` | commelec-interpreter/adv-interpreter.cpp:140-142 | The same, for the rows of a matrix. |
| `Interpreter.AdvFunc.FindReferencesInSets` | commelec-interpreter/adv-interpreter.cpp:147-150 | The same, for the sets of an intersection. |
| `Interpreter.AdvFunc.constructor` | commelec-interpreter/adv-interpreter.hpp:98 | An interpreter made without an advertisement knows no names and no values. |
| `Expressions.UnfoldsOnce` | commelec-interpreter/adv-interpreter-eval.cpp:420-433 | Following the references of an expression has one result at most. |
| `References.LastWins` | commelec-interpreter/adv-interpreter.cpp:77-79 | A name leads to the last expression that bears it. |
| `References.KeptExactly` | commelec-interpreter/adv-interpreter.cpp:77-79 | No named expression is lost exactly when expressions of the same name are the same. |
| `References.Untouched` | commelec-interpreter/adv-interpreter.cpp:77-79 | A name that does not occur keeps its meaning. |
| `Occurrences.ExpressionCollected` | commelec-interpreter/adv-interpreter.cpp:71-107 | The names entered for an expression are those of its occurrences, stated by a predicate that follows the arguments and not the traversal. |
| `Occurrences.SetCollected` | commelec-interpreter/adv-interpreter.cpp:109-187 | The same for the expressions in a set, through all its parts. |
| `Occurrences.SetNamesCollected` | commelec-interpreter/adv-interpreter.cpp:109-187 | And for the names of sets. |
| `Occurrences.NamedOccurInSet` | commelec-interpreter/adv-interpreter.cpp:118-151 | The traversal of a set lists exactly its named occurrences. |
| `Occurrences.LastNamedWins` | commelec-interpreter/adv-interpreter.cpp:77-79 | A name leads to the occurrence that comes last, arguments after the whole and from left to right. |
| `Occurrences.CountIsSize` | commelec-interpreter/adv-interpreter.cpp:71-107 | The visits that collecting takes are those of an unfolding without references. |
| `VisitCounter.EndlessExactly` | commelec-interpreter/adv-interpreter.hpp:154-263 | Evaluating an expression, with its case distinctions, or testing a set goes on for ever exactly when a name is followed whose target is still being evaluated, with the counter as it was when that began. |
| `VisitCounter.EndsSoonOrNever` | commelec-interpreter/adv-interpreter.hpp:154-263 | So it ends within 10001 references inside one another for each name there is, or never. |
| `VisitCounter.RankedEnds` | commelec-interpreter/adv-interpreter.hpp:154-263 | When the names can be ranked so that each leads to lower ones only, every run ends. |
| `Circles.SelfReference` | commelec-interpreter/adv-interpreter.hpp:177-178 | A set that refers to itself is tested for ever. |
| `Circles.SelfIntersection` | commelec-interpreter/adv-interpreter.hpp:255-263 | So is an intersection whose first set refers to it. |
| `Circles.StoppedByNumber` | commelec-interpreter/adv-interpreter.hpp:158-164 | An intersection of a number and itself is stopped: after many rounds the counter passes its maximum at the number and not at a set. |
| `Circles.CaseNeverEnds` | commelec-interpreter/adv-interpreter-eval.cpp:395-417 | With a set of 71 visits it is evaluated for ever: the counter starts anew after 137 rounds, always at a set. |
| `Circles.StoppedByCase` | commelec-interpreter/adv-interpreter-eval.cpp:395-417 | An expression with one case that leads to itself, for a set of one visit, is stopped: the counter meets its maximum at the expression. |
| `CaseSelection.FirstHolding` | commelec-interpreter/adv-interpreter-eval.cpp:395-417 | A case distinction over any sets comes to the expression of the first set that contains the point, with nothing behind it run; to what the test of that set comes to, if it does not end; and to an error when no set contains the point. |
| `CaseSelection.BeliefSelection` | commelec-interpreter/adv-interpreter-eval.cpp:395-417 | For the interval cases of a belief, that is the meaning of the first case that contains the power: an error for certain if there is none, and the value whenever the visits fit. |
| `CaseSelection.IntervalIsRectangle` | commelec-interpreter/adv-interpreter.hpp:227-244 | The test of an interval is that of the rectangle that the belief builds, with its two bounds. |
| `SetTests.TestRun` | commelec-interpreter/adv-interpreter.hpp:207-253 | Testing a ball, rectangle, polytope or single point says whether the point lies in the set that its expressions evaluate to, within the visits of these, fewer only for a rectangle that is left early; a set of another dimension is an error. |
| `SetTests.CompareExactly` | commelec-interpreter/adv-interpreter.hpp:207-253 | The comparison with the evaluated numbers is membership, and fails exactly for another dimension. |
| `SetTests.MeetRun` | commelec-interpreter/adv-interpreter.hpp:255-263 | The test of an intersection ends with the first set that does not contain the point. |
| `VisitCounter.CounterHarmless` | commelec-interpreter/adv-interpreter.hpp:158-164 | Unless an exception is raised, the counter does not stand above its maximum afterwards. |
| `VisitCounter.MoreFuel` | commelec-interpreter/adv-interpreter.hpp:154-181 | An answer does not depend on how many more references might have been followed. |
| `VisitCounter.UnknownName` | commelec-interpreter/adv-interpreter.hpp:177-178 | Following a name that nothing bears is an error for an expression, and for a set the test of the empty message that the lookup makes. |
| `Circles.NoUnfolding` | commelec-interpreter/adv-interpreter-eval.cpp:21-25 | An expression that refers to itself has no unfolding, and so is refused by the evaluator. |
| `Circles.RunIsEvaluate` | commelec-interpreter/adv-interpreter-eval.cpp:21-145 | For an expression with an unfolding, the run of its task is what the evaluator does: the value and the visits, or an exception exactly when the budget is too small. |
| `Circles.UnboundRaised` | commelec-interpreter/adv-interpreter-eval.cpp:21-50 | An expression whose unfolding has a variable without a value raises an exception. |
| `Circles.DoneUnfolds` | commelec-interpreter/adv-interpreter-eval.cpp:21-50 | So only expressions that have an unfolding with all variables bound get a value: the run and the evaluator agree on which these are. |
| `Circles.ExpressionsEnd` | commelec-interpreter/adv-interpreter.hpp:90-94 | Where no set is visited the guard does what its comment says: every run ends within the maximum of references inside one another, circles or not. |
| `DerivativeTheorems.DerivativeCorrect` | commelec-interpreter/adv-interpreter-eval.cpp:52-81 | On constants, variables, references, negation, sums, products, list sums and products and polynomials the computed value is the derivative: along the step h the value is a polynomial in h with coefficients that do not depend on h, and this is its coefficient of h. |
| `DerivativeTheorems.DerivativeBound` | commelec-interpreter/adv-interpreter-eval.cpp:52-81 | So f(v+h) = f(v) + h*f'(v) up to a constant times h^2, for steps up to 1. |
| `DerivativeTheorems.DerivativeUnique` | commelec-interpreter/adv-interpreter-eval.cpp:52-81 | No other number is the derivative. |
| `DerivativeTheorems.ValueAndDerivative` | commelec-interpreter/adv-interpreter-eval.cpp:7-19 | Evaluating an algebraic expression and deriving it gives, each exactly within its budget of visits, the value and the derivative of one function. |
| `DerivativeTheorems.ProductJet` | commelec-interpreter/adv-interpreter-eval.cpp:220-237 | The n-ary product rule of the double loop. |
| `DerivativeTheorems.SumJet` | commelec-interpreter/adv-interpreter-eval.cpp:213-219 | The rule for list sums. |
| `DerivativeTheorems.PolynomialDerivative` | commelec-interpreter/adv-interpreter-eval.cpp:352-391 | The derivative of a polynomial node is the sum of the dVar results over all occurrences of the variable. |
| `DerivativeTheorems.PolynomialDerivativeExact` | commelec-interpreter/adv-interpreter-eval.cpp:267-277 | Deriving by the first occurrence of the variable is right exactly where the polynomial's dVar results for the later occurrences add up to 0, and so for distinct variables. |
| `DerivativeTheorems.PolynomialDerivativeEverywhere` | commelec-interpreter/adv-interpreter-eval.cpp:267-277 | It is right at every point exactly when that sum is 0 at every point; it is when no term uses a later occurrence, and without negative coefficients only then. |
| `DerivativeTheorems.PolynomialDerivativeWrong` | commelec-interpreter/adv-interpreter-eval.cpp:267-277 | The variable x listed twice and used in the second place: the derivative is 1, computed is 0. |
| `DerivativeTheorems.MonomialJet` | commelec-interpreter/adv-interpreter-eval.cpp:374-387 | The dVar branch of a monomial is its derivative by that variable. |
| `DerivativeTheorems.SquareDerivative` | commelec-interpreter/adv-interpreter-eval.cpp:297-298 | The derivative of a square is 2*f*f'. |
| `DerivativeTheorems.SquareDerivativeExact` | commelec-interpreter/adv-interpreter-eval.cpp:297-298 | The computed 2*f' is right exactly where f' is 0 or f is 1. |
| `DerivativeTheorems.SquareDerivativeWrong` | commelec-interpreter/adv-interpreter-eval.cpp:297-298 | x^2 at 3: the derivative is 6, computed is 2. |
| `LocalDerivatives.DerivativeNearby` | commelec-interpreter/adv-interpreter-eval.cpp:52-81 | The computed value is the derivative, of second order in a neighbourhood of the point, for every expression at no node of which one of the rules fails or a kink or jump lies: the inverse, abs, sign, min, max and comparisons included, and exp, sin, cos, tan, sqrt, ln, log10 and pow wherever the library's functions have the derivatives of the table. |
| `LocalDerivatives.SlopeBound` | commelec-interpreter/adv-interpreter-eval.cpp:52-81 | So there are b and r > 0 such that f(v+h) differs from f(v) + h*f'(v) by at most b*h^2 for all steps h between -r and r. |
| `LocalDerivatives.DerivativeOnce` | commelec-interpreter/adv-interpreter-eval.cpp:52-81 | No other number is the derivative there. |
| `LocalDerivatives.ValueAndSlope` | commelec-interpreter/adv-interpreter-eval.cpp:7-19 | Evaluating and deriving such an expression gives, each exactly within its budget of visits, the value and the derivative of one function; with at most 100 nodes both succeed. |
| `LocalDerivatives.UnaryRuleExact` | commelec-interpreter/adv-interpreter-eval.cpp:279-320 | Every rule for one argument, with that argument's derivative, gives the derivative, but for squares, where this is so exactly where f' is 0 or f is 1, and for round, floor and ceil, away from jumps exactly where f' is 0. |
| `LocalDerivatives.AbsAtZero` | commelec-interpreter/adv-interpreter-eval.cpp:315-316 | Where the argument of abs is 0 the computed value is right exactly if the argument's derivative is 0. |
| `LocalDerivatives.Apart` | commelec-interpreter/adv-interpreter-eval.cpp:163-176 | Where two values differ, the rules for min, max and the comparisons give the derivative. |
| `LocalDerivatives.Level` | commelec-interpreter/adv-interpreter-eval.cpp:163-172 | Where they are equal, those for min and max do exactly if the derivatives are equal too. |
| `LocalDerivatives.PowSlope` | commelec-interpreter/adv-interpreter-eval.cpp:147-182 | The rule for pow is the chain rule for the two derivatives of the power. |
| `LocalDerivatives.InverseOp` | commelec-interpreter/adv-interpreter-eval.cpp:304-307 | The inverse has the derivative -1/v^2 at every v that is not 0. |
| `LocalDerivatives.InverseOfTwo` | commelec-interpreter/adv-interpreter-eval.cpp:304-307 | 1/x at 2 is derived as -1/4. |
| `LocalDerivatives.KinkOfAbs` | commelec-interpreter/adv-interpreter-eval.cpp:315-316 | abs(x) at 0 has no derivative, computed is 0. |
| `LocalDerivatives.FloorOfHalf` | commelec-interpreter/adv-interpreter-eval.cpp:309-314 | The floor of x at 1/2: the derivative is 0, computed is 1. |
| `LocalDerivatives.AlgebraicRegular` | commelec-interpreter/adv-interpreter-eval.cpp:52-81 | The expressions of DerivativeCorrect are among these, at every point. |
| `Slopes.SlopeChain` | commelec-interpreter/adv-interpreter-eval.cpp:279-320 | The chain rule, in a neighbourhood of the point. |
| `Slopes.SlopeChain2` | commelec-interpreter/adv-interpreter-eval.cpp:147-182 | The chain rule for two arguments. |
| `Slopes.SlopeProduct` | commelec-interpreter/adv-interpreter-eval.cpp:158-160 | The product rule, in a neighbourhood. |
| `Slopes.InverseSlope` | commelec-interpreter/adv-interpreter-eval.cpp:304-307 | 1/(v+k) - 1/v + k/v^2 is at most a constant times k^2, for k up to half the size of v. |
| `Slopes.SlopeOnce` | commelec-interpreter/adv-interpreter-eval.cpp:52-81 | The derivative is determined by the function near the point. |
| `Derivatives.DCostAtMostSquare` | commelec-interpreter/adv-interpreter-eval.cpp:52-81 | Deriving takes at most the square of the visits that evaluating takes. |
| `Calculus.JetUnique` | commelec-interpreter/adv-interpreter-eval.cpp:52-81 | Value and slope of a polynomial function are determined by the function. |
| `Calculus.JetBound` | commelec-interpreter/adv-interpreter-eval.cpp:52-81 | The remainder after the linear part is of second order. |
| `Calculus.JetProduct` | commelec-interpreter/adv-interpreter-eval.cpp:158-160 | The product rule. |
| `Calculus.JetPower` | commelec-interpreter/adv-interpreter-eval.cpp:383 | The power rule. |
| `Calculus.TimesLow` | commelec-interpreter/adv-interpreter-eval.cpp:158-160 | The product rule on coefficients. |
| `LetBinding.BuildCollectEvaluate` | commelec-api/realexpr-convenience.hpp:325-327 | For expressions without cos whose names in the messages are unique and not circular: building the messages, collecting their names and evaluating one of them succeeds exactly when neither takes more than 10000 visits, and then gives the let-binding meaning of the expression. |
| `LetBinding.BuildCollect` | commelec-api/realexpr-convenience.hpp:325-327 | After collecting the names of all messages, each unfolds to the meaning of its expression, in a number of nodes that the expression determines. |
| `LetBinding.Meaning` | commelec-api/realexpr-convenience.hpp:230-301 | The same for one expression, with names already linked: a-b through negation and a/b through the inverse mean difference and quotient. |
| `LetBinding.SurvivingNames` | commelec-api/realexpr-convenience.hpp:151-163 | The names in a message are those of the expression, in the order of the traversal, of names nested directly the innermost. |
| `LetBinding.SurvivorsExactly` | commelec-api/realexpr-convenience.hpp:151-163 | All names are in the message exactly when no expression is given two. |
| `LetBinding.OuterNameLost` | commelec-api/realexpr-convenience.hpp:158-162 | Of two names nested directly the outer one is lost, and a reference to it is unknown. |
| `LetBinding.CollectedLinks` | commelec-interpreter/adv-interpreter.cpp:71-107 | When no name is used twice, every name leads to what was built for its definition. |
| `LetBinding.CollectedExactly` | commelec-interpreter/adv-interpreter.cpp:71-107 | Every definition is found under its name exactly when definitions of the same name build the same message. |
| `LetBinding.CosIsSine` | commelec-api/realexpr-convenience.hpp:264 | The message that cos builds for an expression without cos is worth the sine of its meaning, and so is right exactly where sine and cosine agree. |
| `LetBinding.CosOfZero` | commelec-api/realexpr-convenience.hpp:264 | The cosine of 0 is built as a message that is worth 0. |
| `LetBinding.NameUsedTwice` | commelec-interpreter/adv-interpreter.cpp:77-79 | Of two expressions of the same name the first is lost. |
| `LetBinding.InverseTimes` | commelec-api/realexpr-convenience.hpp:297-301 | Multiplying by the inverse is dividing. |
| `PVAdvertisement.SecondCorner` | commelec-api/hlapi.cpp:325-344 | Built, collected and evaluated, the bounds of the PV belief are max(0, p-delta) and sign(q)*min(abs(q), p2*tanPhi). |
| `PVAdvertisement.SecondCornerInProfile` | commelec-api/hlapi.cpp:299-344 | With a delta and a greatest power that are not negative, this corner lies in the profile with every setpoint. |
| `PVAdvertisement.DeltaExact` | commelec-api/hlapi.cpp:265-277 | For any parameters: with a greatest power that is not negative the corners stay in the profile exactly when delta is not negative, and with a negative one exactly when the profile is empty, by its slope or its rating; the code checks neither. |
| `PVAdvertisement.CornerLeaves` | commelec-api/hlapi.cpp:265-277 | A setpoint of the profile whose corner a negative delta puts outside. |
| `PVAdvertisement.NegativeGreatestPower` | commelec-api/hlapi.cpp:265-277 | With a greatest power of -1 and delta 0 the setpoint (-1, 0) has the corner (0, 0). |
| `PVAdvertisement.BeliefNames` | commelec-api/hlapi.cpp:341-344 | The belief names one expression. |
| `Polynomials.BuildPolynomial` | commelec-api/polynomial-convenience.hpp:219-262 | The encoding: variables in ascending order, the greatest power, and per monomial its coefficient and the offset of its combined exponents, in the widths of the message. |
| `Polynomials.BuildOffset` | commelec-api/polynomial-convenience.hpp:246-258 | The loop over the powers adds up the offset of the combined exponents. |
| `Polynomials.Variables` | commelec-api/polynomial-convenience.hpp:147-154 | Exactly the names that occur, in ascending order. |
| `Polynomials.Insert` | commelec-api/polynomial-convenience.hpp:149-153 | Inserting into an ordered set. |
| `Polynomials.BeforeExactly` | commelec-api/polynomial-convenience.hpp:147-154 | The order of the names: where they first differ, the first ends or has the smaller character. |
| `Polynomials.EncodingMeaning` | commelec-api/polynomial-convenience.hpp:219-262 | Evaluating the encoding gives the sum of the coefficients times the products of the powers as written. |
| `Polynomials.EncodingDerivative` | commelec-interpreter/adv-interpreter-eval.cpp:267-277 | An encoding has distinct variables, so that deriving it by the first occurrence is right. |
| `Polynomials.TermMeaning` | commelec-interpreter/adv-interpreter-eval.cpp:367-388 | Every term is decoded to the monomial that it was built from. |
| `Polynomials.DecodeExact` | commelec-interpreter/adv-interpreter-eval.cpp:372-375 | Decoding an offset gives back the exponents exactly when all of them are less than the base. |
| `Polynomials.DigitRecovered` | commelec-interpreter/adv-interpreter-eval.cpp:375 | Dividing by d^var and reducing modulo d is the exponent of the variable. |
| `Polynomials.OffsetsDistinct` | commelec-api/polynomial-convenience.hpp:246-258 | Different exponents have different offsets. |
| `Polynomials.UsedOnce` | commelec-api/polynomial-convenience.hpp:111-118 | Using each variable at most once in a monomial keeps the exponents below the base. |
| `Polynomials.RepeatedFactor` | commelec-api/polynomial-convenience.hpp:111-118 | X joined with X, together with Y, is read back as Y. |
| `Polynomials.MaxPowerIsMax` | commelec-api/polynomial-convenience.hpp:88-98 | The greatest power of a monomial. |
| `Polynomials.MaxVarDegreeIsMax` | commelec-api/polynomial-convenience.hpp:136-145 | The greatest power of all. |
| `Polynomials.ProductOfPowers` | commelec-api/polynomial-convenience.hpp:250-258 | The product over the variables is the product of the powers as written. |
| `Polynomials.BaseInMessage` | commelec-api/polynomial-convenience.hpp:233-240 | The base that the decoder computes is the base of the encoder, if the degree fits. |
| `Beliefs.ProjBeliefNearest` | commelec-api/hlapi.cpp:513-555 | Every power, less the error, is taken to a nearest point of the set. |
| `Beliefs.MakeProjBelief` | commelec-api/hlapi.cpp:516-554 | The cases for the sorted points; an empty list is an error. |
| `Beliefs.Sort` | commelec-api/hlapi.cpp:522 | The points in ascending order, none lost or added. |
| `Beliefs.ProjFrom` | commelec-api/hlapi.cpp:537-553 | The first of the overlapping cases that contains a power is the one between whose boundaries it lies. |
| `Beliefs.SelectCase` | commelec-interpreter/adv-interpreter-eval.cpp:395-417 | Of cases whose sets are intervals of one variable, the first that contains the point, or an error if there is none. |
| `Beliefs.MakeRoundBelief` | commelec-api/hlapi.cpp:476-511 | Of the three overlapping cases the first that contains a power selects Pmin up to Pmin+error, Pmax from Pmax+error on, and the rounding in between. |
| `Beliefs.RoundBeliefNearest` | commelec-api/hlapi.cpp:476-511 | If the range is a whole number of steps, every power is taken to a setpoint of the grid within the range and within half a step of the power less the error, clamped to the range. |
| `Beliefs.RoundBeliefMonotone` | commelec-api/hlapi.cpp:476-511 | A greater power is not taken to a smaller setpoint. |
| `Beliefs.RoundBeliefRange` | commelec-api/hlapi.cpp:476-511 | For any range, the setpoints stay in it exactly when the fraction of a step left over is at most one half. |
| `Beliefs.RoundedPastRange` | commelec-api/hlapi.cpp:508-509 | Between 0 and 3/4, with steps of 1, the power 0.7 is taken to 1. |
| `Beliefs.RoundTermMeaning` | commelec-api/hlapi.cpp:508-509 | What the expression in the last case denotes. |
| `Beliefs.GridOrigin` | commelec-api/hlapi.cpp:487-488 | The correction aligns the grid with Pmin. |
| `Beliefs.FmodIsRest` | commelec-api/hlapi.cpp:487-488 | The correction has the sign of Pmin and is less than a step. |
| `Beliefs.Order` | commelec-api/hlapi.cpp:508-509 | Powers are ordered as their numbers of steps. |
| `RunLength.RunlengthCompress` | utils/visualization_server.cpp:112-176 | The loop that rewinds writes every maximal run of a compressible value as the value and its length; it ends although the index is taken back. |
| `RunLength.Uncompress` | utils/viz-user.py:27-50 | The decoder, with the exceptions of malformed input. |
| `RunLength.RoundTrip` | utils/visualization_server.cpp:112-176 | Every matrix is received element for element, not-a-number included, and -1 as -1+eps. |
| `RunLength.AllClose` | utils/visualization_server.cpp:112-176 | So what is received differs from what was sent by at most 2^-52, and not at all but for -1. |
| `RunLength.EpsilonIs` | utils/visualization_server.cpp:147 | The number added to -1 is 2^-52. |
| `RunLength.DecodeEncode` | utils/viz-user.py:40-50 | Decoding an encoding of cleaned numbers. |
| `RunLength.RunsMaximal` | utils/visualization_server.cpp:151-175 | Every compressible value is followed by a positive length and then by something else. |
| `RunLength.EndRun` | utils/visualization_server.cpp:155-161 | Ending a run and reading the element again. |
| `RunLength.SameRun` | utils/visualization_server.cpp:151-154 | Continuing a run. |

## Left out

- Floating point: numbers are exact reals. The tolerances of the linear program are read as exact tests of sign or zero, Eigen's approximate comparison of singletons as equality, and rounding, overflow, NaN and infinity occur only where named (bounds of cases, the run-length code).
- Normalising by a square root in the linear program is an arbitrary positive factor; in the projections and in the convergence test the square root is a parameter of which only its defining property is used.
- C pointers into the solver's buffers are offsets into one array, which is where disjointness is stated. `lp_base_case` calls `move_to_front` with three arguments although it takes four; the model passes `max_size`, as the recursive solver does.
- LinProg.ProjectObjective: with a zero denominator optimality is not stated for more than one dimension; the only caller that passes one is the stand-alone program externals/seidel_lp/do_lp.c, which the build of the library leaves out.
- BaseCase.DependentCase: that the two ends of the arc have the same length is a condition, because normalising is an arbitrary positive factor here; in the source it makes them of length 1.
- BaseCase.LpMinLinRat: in the degenerate branch the divisions can be by zero; the comparison is then arbitrary. Where the denominator is negative somewhere on the arc (a pole inside) the objective has no minimum, and only feasibility is stated.
- BoundingBox.NormaliseRows: a row of zeros, for which normalising is undefined in exact arithmetic, is left as it is.
- RectHull.MeetHull: resizing a matrix, lines 154 and 156 of adv-interpreter-recthull.cpp, discards what the comment wants to keep, and filling it from itself then writes more rows than it has. What that leaves is modelled as arbitrary rows; that the program may stop or write outside the matrix is not. Sets are in the plane and have been evaluated; the visits that evaluating them costs are not counted here.
- Interpreter.AdvFunc.Evaluate: case distinctions are not part of these expressions, because testing membership resets the counter (see VisitCounter and Circles); the order in which C++ evaluates the operands of an operator is taken from left to right. What the mathematics library returns (exp, sin, pow, division by zero) is a parameter.
- Interpreter.AdvFunc.EvaluatePartialDerivative: that the library's exp, sin, cos, tan, sqrt, ln, log10 and pow have the derivatives of a table is a condition of LocalDerivatives.DerivativeNearby, with the source's constant for log10 e taken as exact; round, floor and ceil are derived as if they were not there, as the source says. What the rules give at a jump, or where two compared values are equal, is not related to a derivative. Case distinctions are left out.
- Polynomials.EncodingMeaning: offsets of 2^31 and more and degrees of 256 and more are excluded (the message's fields wrap around); powers that are negative are excluded.
- LetBinding.BuildCollectEvaluate: polynomials inside such expressions and the list operations, for which the C++ interface has no operator, are left out.
- Beliefs.MakeRoundBelief: the step is not zero (the source computes fmod and a quotient with it). ZenoneBelief, which uses the same cases, is left out.
- Projections.Project: a half-space without points because its normal is zero, for which the source divides by zero, is excluded. The projection onto polytopes and intersections runs Dykstra's algorithm inside Dykstra's algorithm and is only approximate; convergence in the limit is not stated.
- Dykstra.Dykstra: a half-space without points because its normal is zero is excluded, as for Projections.Project, and so for Dykstra.SweepAndTest, Dykstra.Sweep and Dykstra.Step. With a ball of negative radius in the list only conservation, the membership of each projection and the test of convergence are stated: outside such a ball the formula gives no projection (BallFormulaExact).
- VisitCounter.Run: expressions with case distinctions are tasks, built by Circles.Cases; the syntax tree of messages has no such node, so that Interpreter.AdvFunc.Evaluate gives their value no meaning.
- RectHull.TestMembership: references and case distinctions are reported as unsupported; following references is the matter of VisitCounter and Circles.TestOf.
- Beliefs.SelectCase: the sets of its cases are intervals of one variable, as in the beliefs that are built; selection among tests of any sets is CaseSelection.FirstHolding.
- Beliefs.Sort: the library's sorting is modelled by an insertion sort; random numbers are arbitrary.
- RunLength.RunlengthCompress: the JSON document is the list of its numbers. The decoder's comment speaks of 0.0 and 1.0, its code of 0.0 and -1.0; the model follows the code.
- Cap'n Proto messages, packing and validation, the daemon, the JSON interface, networking, plotting and the remaining advertisement builders.
