/** The physics step of the world (CoreImpl/World.cpp: `World::Tick` and
    `ResolveCollision`).

    The step reads and writes, for each object of the world's list, its transform's
    position, velocity and acceleration, its physical properties component (mass and
    anchored flag) if it has one and its hitbox component's list if it has one. Here
    these are one `Body` value per object, kept in list order in the `bodies` field
    of a `World` object that the methods reassign. What the step makes the objects
    do besides (their `Tick` hook, the `Moved` signal `GameObject::Move` fires, the
    `OnCollision` calls) is recorded, in order, in the `events` field. The collision
    groups' table is the value `CollisionMatrix` holds. The search and the methods
    that run it take the sweep test as a function value; `Tick` gives them
    `SweepWith(sqrt)`, the test the method `SweptShapeCollision` is proved to
    compute (with the box and rectangle-circle sweeps as written), with the square
    root `sqrt` a parameter. */
module Physics {
  import opened Wrappers
  import opened GMath
  import opened Shapes
  import opened Collisions
  import opened Sweeps

  /** `PhysicalPropertiesComponent`'s fields. */
  datatype PhysProps = PhysProps(mass: real, anchored: bool)

  /** One object as the step sees it. */
  datatype Body = Body(position: Vec2, velocity: Vec2, acceleration: Vec2,
                       physical: Option<PhysProps>, hitboxes: Option<seq<Hitbox>>)
  {
    /** `phys && phys->IsAnchored()`; the step moves exactly the bodies that are not. */
    predicate Anchored() {
      physical.Some? && physical.value.anchored
    }
  }

  /** What the step makes an object do besides changing its own state, with the
      object's place in the list. */
  datatype Event =
    | Ticked(obj: nat, dt: real)
    | Moved(obj: nat, position: Vec2)
    | Collided(obj: nat, other: nat)

  /** `EPS`: the loop stops once no more than this much time is left. */
  const TimeEps: real := 0.000001
  /** `MIN_STEP`: the least time a contact advances by, unless less is left. */
  const MinStep: real := 0.00001
  /** `separationBias`. */
  const Bias: real := 0.001
  /** `restitution`: no bounce. */
  const Restitution: real := 0.0

  // ---------------------------------------------------------------------------
  // Moving and integrating one body
  // ---------------------------------------------------------------------------

  /** `GameObject::Move(delta)` on the transform: the position shifts by delta. */
  function Moving(b: Body, delta: Vec2): (r: Body)
    ensures r.position == b.position.Add(delta)
    ensures r.velocity == b.velocity && r.acceleration == b.acceleration
    ensures r.physical == b.physical && r.hitboxes == b.hitboxes
  {
    b.(position := b.position.Add(delta))
  }

  /** What `GameObject::Move(delta)` fires: `Moved` with the new position, only for
      a nonzero delta. */
  function MoveEvents(i: nat, b: Body, delta: Vec2): (r: seq<Event>)
    ensures |r| <= 1
    ensures r != [] <==> delta.LengthSquared() != 0.0
    ensures r != [] ==> r[0] == Moved(i, Moving(b, delta).position)
  {
    if delta.LengthSquared() != 0.0 then [Moved(i, b.position.Add(delta))] else []
  }

  /** The integration loop's update of one body: velocity += acceleration * dt for
      a body with physical properties that is not anchored. */
  function Integrated(b: Body, dt: real): (r: Body)
    ensures b.physical.Some? && !b.Anchored() ==> r.velocity == b.velocity.Add(b.acceleration.Scale(dt))
    ensures !(b.physical.Some? && !b.Anchored()) ==> r == b
    ensures r.position == b.position && r.acceleration == b.acceleration
    ensures r.physical == b.physical && r.hitboxes == b.hitboxes
  {
    if b.physical.Some? && !b.physical.value.anchored then b.(velocity := b.velocity.Add(b.acceleration.Scale(dt)))
    else b
  }

  function IntegratedAll(bs: seq<Body>, dt: real): (r: seq<Body>)
    ensures |r| == |bs|
    ensures forall k :: 0 <= k < |bs| ==> r[k] == Integrated(bs[k], dt)
  {
    seq(|bs|, k requires 0 <= k < |bs| => Integrated(bs[k], dt))
  }

  /** Every object's `Tick` hook runs once, in list order. */
  function TickEvents(n: nat, dt: real): (r: seq<Event>)
    ensures |r| == n
    ensures forall k :: 0 <= k < n ==> r[k] == Ticked(k, dt)
  {
    seq(n, (k: nat) => Ticked(k, dt))
  }

  /** The advance of one body by `step`: a body that is not anchored moves by its
      velocity times step (a body without physical properties moves too). */
  function Advanced(b: Body, step: real): (r: Body)
    ensures b.Anchored() ==> r == b
    ensures !b.Anchored() ==> r.position == b.position.Add(b.velocity.Scale(step))
    ensures r.velocity == b.velocity && r.acceleration == b.acceleration
    ensures r.physical == b.physical && r.hitboxes == b.hitboxes
  {
    if b.Anchored() then b else Moving(b, b.velocity.Scale(step))
  }

  function AdvancedAll(bs: seq<Body>, step: real): (r: seq<Body>)
    ensures |r| == |bs|
    ensures forall k :: 0 <= k < |bs| ==> r[k] == Advanced(bs[k], step)
  {
    seq(|bs|, k requires 0 <= k < |bs| => Advanced(bs[k], step))
  }

  /** The `Moved` events of advancing the first n bodies, in list order. */
  function AdvanceEvents(bs: seq<Body>, step: real, n: nat): seq<Event>
    requires n <= |bs|
  {
    if n == 0 then []
    else (AdvanceEvents(bs, step, n - 1) +
          if bs[n - 1].Anchored() then [] else MoveEvents(n - 1, bs[n - 1], bs[n - 1].velocity.Scale(step)))
  }

  // ---------------------------------------------------------------------------
  // The earliest contact
  // ---------------------------------------------------------------------------

  /** A hit between two hitboxes of the objects at a and b (a < b): when it happens
      (`toi * remaining`), the normal and whether either hitbox is a trigger. */
  datatype Contact = Contact(a: nat, b: nat, impact: real, normal: Vec2, isTrigger: bool)

  /** The search's state: `earliest` and the hit fields, if any hit was kept. */
  datatype Best = Best(earliest: real, choice: Option<Contact>)

  /** The update at each hit: kept only when strictly earlier. */
  function Offer(best: Best, c: Contact): Best {
    if c.impact < best.earliest then Best(c.impact, Some(c)) else best
  }

  /** The search over the hits in the order the loops meet them. */
  function FoldOffer(best: Best, cs: seq<Contact>): Best {
    FoldPrefix(best, cs, |cs|)
  }

  /** The search over the first n hits. */
  function FoldPrefix(best: Best, cs: seq<Contact>, n: nat): Best
    requires n <= |cs|
  {
    if n == 0 then best else Offer(FoldPrefix(best, cs, n - 1), cs[n - 1])
  }

  /** `std::max(0.0, std::min(1.0, toi))`. */
  function Clamp01(t: real): (r: real)
    ensures 0.0 <= r <= 1.0
    ensures 0.0 <= t <= 1.0 ==> r == t
  {
    RMax(0.0, RMin(1.0, t))
  }

  /** A sweep test over two shapes, their positions and their displacements. */
  type Sweeper = (Shape, Vec2, Vec2, Shape, Vec2, Vec2) -> SweepResult

  /** The sweep test `SweptShapeCollision` computes, with the given square root. */
  function SweepWith(sqrt: real -> real): Sweeper {
    (aShape: Shape, aPos: Vec2, aDisp: Vec2, bShape: Shape, bPos: Vec2, bDisp: Vec2) =>
      ShapeSweep(aShape, aPos, aDisp, bShape, bPos, bDisp, sqrt)
  }

  /** A sweep's outcome as the search sees it: nothing on a miss, otherwise the hit
      with its time of impact clamped and scaled to the remaining time. */
  function HitOf(res: SweepResult, i: nat, j: nat, remaining: real, isTrigger: bool): (r: seq<Contact>)
    ensures |r| <= 1
    ensures r == [] <==> !res.hit
    ensures r != [] ==> r[0] == Contact(i, j, Clamp01(res.toi) * remaining, res.normal, isTrigger)
  {
    if !res.hit then [] else [Contact(i, j, Clamp01(res.toi) * remaining, res.normal, isTrigger)]
  }

  /** The innermost loop body for hitboxes hA of a (at index i) and hB of b (at j):
      no hit when the table says the groups collide (the test is as written: a pair
      whose groups are marked to collide is skipped) or when the shapes miss. */
  function Probe(i: nat, a: Body, j: nat, b: Body, hA: Hitbox, hB: Hitbox, remaining: real,
                 matrix: Matrix, sweep: Sweeper): (r: seq<Contact>)
    ensures |r| <= 1
    ensures Lookup(matrix, hA.group, hB.group) ==> r == []
  {
    if Lookup(matrix, hA.group, hB.group) then []
    else HitOf(sweep(hA.shape, a.position, a.velocity.Scale(remaining),
                     hB.shape, b.position, b.velocity.Scale(remaining)),
               i, j, remaining, hA.isTrigger || hB.isTrigger)
  }

  /** The hits of hA against the first n hitboxes of hbs. */
  function ProbeRow(i: nat, a: Body, j: nat, b: Body, hA: Hitbox, hbs: seq<Hitbox>, n: nat, remaining: real,
                    matrix: Matrix, sweep: Sweeper): seq<Contact>
    requires n <= |hbs|
  {
    if n == 0 then []
    else (ProbeRow(i, a, j, b, hA, hbs, n - 1, remaining, matrix, sweep) +
          Probe(i, a, j, b, hA, hbs[n - 1], remaining, matrix, sweep))
  }

  /** The hits of the first m hitboxes of has against all of hbs. */
  function ProbeGrid(i: nat, a: Body, j: nat, b: Body, has: seq<Hitbox>, hbs: seq<Hitbox>, m: nat, remaining: real,
                     matrix: Matrix, sweep: Sweeper): seq<Contact>
    requires m <= |has|
  {
    if m == 0 then []
    else (ProbeGrid(i, a, j, b, has, hbs, m - 1, remaining, matrix, sweep) +
          ProbeRow(i, a, j, b, has[m - 1], hbs, |hbs|, remaining, matrix, sweep))
  }

  /** Whether the pair is examined at all: both have a hitbox component and they are
      not both anchored (both have a transform here). */
  predicate Tested(a: Body, b: Body) {
    a.hitboxes.Some? && b.hitboxes.Some? && !(a.Anchored() && b.Anchored())
  }

  /** The hits of the pair (i, j). */
  function PairContacts(i: nat, a: Body, j: nat, b: Body, remaining: real, matrix: Matrix,
                        sweep: Sweeper): (r: seq<Contact>)
    ensures !Tested(a, b) ==> r == []
  {
    if !Tested(a, b) then []
    else ProbeGrid(i, a, j, b, a.hitboxes.value, b.hitboxes.value, |a.hitboxes.value|, remaining, matrix, sweep)
  }

  /** The hits of one pair of the list, given its two indices and bodies. */
  type PairHits = (nat, Body, nat, Body) -> seq<Contact>

  /** `PairContacts` for one pass: the remaining time, the table and the sweep test
      fixed. */
  function PairsWith(remaining: real, matrix: Matrix, sweep: Sweeper): PairHits {
    (i: nat, a: Body, j: nat, b: Body) => PairContacts(i, a, j, b, remaining, matrix, sweep)
  }

  /** Every hit a pair yields names that pair. */
  ghost predicate NamesItsPair(pairs: PairHits) {
    forall i: nat, a: Body, j: nat, b: Body, c: Contact :: c in pairs(i, a, j, b) ==> c.a == i && c.b == j
  }


  /** The pass's hits of a pair name that pair. */
  lemma PairsWithNamesItsPair(remaining: real, matrix: Matrix, sweep: Sweeper)
    ensures NamesItsPair(PairsWith(remaining, matrix, sweep))
  {
    forall i: nat, a: Body, j: nat, b: Body, c: Contact | c in PairsWith(remaining, matrix, sweep)(i, a, j, b)
      ensures c.a == i && c.b == j
    {
      assert Tested(a, b);
      ProbeGridNamesPair(i, a, j, b, a.hitboxes.value, b.hitboxes.value, |a.hitboxes.value|, remaining, matrix, sweep);
    }
  }

  /** The hits of the pairs (i, j) with i < j < k. */
  function RowContacts(bs: seq<Body>, i: nat, k: nat, pairs: PairHits): seq<Contact>
    requires i < k <= |bs|
    decreases k
  {
    if k == i + 1 then []
    else RowContacts(bs, i, k - 1, pairs) + pairs(i, bs[i], k - 1, bs[k - 1])
  }

  /** The hits of the pairs (i, j) with i < m and i < j, in the loops' order. */
  function AllContacts(bs: seq<Body>, m: nat, pairs: PairHits): seq<Contact>
    requires m <= |bs|
  {
    if m == 0 then []
    else AllContacts(bs, m - 1, pairs) + RowContacts(bs, m - 1, |bs|, pairs)
  }

  /** The loop over b's hitboxes for hA, as a search from best: the state after the
      first n of them. */
  function ProbeRowSearch(best: Best, i: nat, a: Body, j: nat, b: Body, hA: Hitbox, hbs: seq<Hitbox>, n: nat,
                          remaining: real, matrix: Matrix, sweep: Sweeper): Best
    requires n <= |hbs|
  {
    if n == 0 then best
    else FoldOffer(ProbeRowSearch(best, i, a, j, b, hA, hbs, n - 1, remaining, matrix, sweep),
                   Probe(i, a, j, b, hA, hbs[n - 1], remaining, matrix, sweep))
  }

  /** The loop over a's hitboxes: the state after the first m of them. */
  function ProbeGridSearch(best: Best, i: nat, a: Body, j: nat, b: Body, has: seq<Hitbox>, hbs: seq<Hitbox>, m: nat,
                           remaining: real, matrix: Matrix, sweep: Sweeper): Best
    requires m <= |has|
  {
    if m == 0 then best
    else ProbeRowSearch(ProbeGridSearch(best, i, a, j, b, has, hbs, m - 1, remaining, matrix, sweep),
                        i, a, j, b, has[m - 1], hbs, |hbs|, remaining, matrix, sweep)
  }

  /** The body of the pair loop: unchanged unless the pair is examined. */
  function PairSearch(best: Best, i: nat, a: Body, j: nat, b: Body, remaining: real, matrix: Matrix,
                      sweep: Sweeper): Best
  {
    if !Tested(a, b) then best
    else ProbeGridSearch(best, i, a, j, b, a.hitboxes.value, b.hitboxes.value, |a.hitboxes.value|,
                         remaining, matrix, sweep)
  }

  /** The body of the pair loop for one pass, as a function of the search state and the pair. */
  type PairStep = (Best, nat, Body, nat, Body) -> Best

  /** `PairSearch` for one pass: the remaining time, the table and the sweep test fixed. */
  function PairStepWith(remaining: real, matrix: Matrix, sweep: Sweeper): PairStep {
    (best: Best, i: nat, a: Body, j: nat, b: Body) => PairSearch(best, i, a, j, b, remaining, matrix, sweep)
  }

  /** The inner pair loop for i: the state after the pairs (i, j) with j < k. */
  function RowSearch(best: Best, bs: seq<Body>, i: nat, k: nat, step: PairStep): Best
    requires i < k <= |bs|
    decreases k
  {
    if k == i + 1 then best
    else step(RowSearch(best, bs, i, k - 1, step), i, bs[i], k - 1, bs[k - 1])
  }

  /** The outer pair loop: the state after the rows i < m. */
  function AllSearch(best: Best, bs: seq<Body>, m: nat, step: PairStep): Best
    requires m <= |bs|
  {
    if m == 0 then best
    else RowSearch(AllSearch(best, bs, m - 1, step), bs, m - 1, |bs|, step)
  }

  /** The search from its initial state: `earliest = remaining`, no hit. */
  function Earliest(bs: seq<Body>, remaining: real, matrix: Matrix, sweep: Sweeper): Best {
    AllSearch(Best(remaining, None), bs, |bs|, PairStepWith(remaining, matrix, sweep))
  }

  /** The loop over b's hitboxes offers the hits of `ProbeRow` in order. */
  lemma {:induction false} ProbeRowSearchFolds(best: Best, i: nat, a: Body, j: nat, b: Body, hA: Hitbox,
                                               hbs: seq<Hitbox>, n: nat, remaining: real, matrix: Matrix,
                                               sweep: Sweeper)
    requires n <= |hbs|
    ensures ProbeRowSearch(best, i, a, j, b, hA, hbs, n, remaining, matrix, sweep) ==
            FoldOffer(best, ProbeRow(i, a, j, b, hA, hbs, n, remaining, matrix, sweep))
    decreases n
  {
    if n > 0 {
      ProbeRowSearchFolds(best, i, a, j, b, hA, hbs, n - 1, remaining, matrix, sweep);
      FoldAppend(best, ProbeRow(i, a, j, b, hA, hbs, n - 1, remaining, matrix, sweep),
                 Probe(i, a, j, b, hA, hbs[n - 1], remaining, matrix, sweep));
    }
  }

  /** The loop over a's hitboxes offers the hits of `ProbeGrid` in order. */
  lemma {:induction false} ProbeGridSearchFolds(best: Best, i: nat, a: Body, j: nat, b: Body, has: seq<Hitbox>,
                                                hbs: seq<Hitbox>, m: nat, remaining: real, matrix: Matrix,
                                                sweep: Sweeper)
    requires m <= |has|
    ensures ProbeGridSearch(best, i, a, j, b, has, hbs, m, remaining, matrix, sweep) ==
            FoldOffer(best, ProbeGrid(i, a, j, b, has, hbs, m, remaining, matrix, sweep))
    decreases m
  {
    if m > 0 {
      var g := ProbeGridSearch(best, i, a, j, b, has, hbs, m - 1, remaining, matrix, sweep);
      ProbeGridSearchFolds(best, i, a, j, b, has, hbs, m - 1, remaining, matrix, sweep);
      var prev, row := ProbeGrid(i, a, j, b, has, hbs, m - 1, remaining, matrix, sweep),
                       ProbeRow(i, a, j, b, has[m - 1], hbs, |hbs|, remaining, matrix, sweep);
      ProbeRowSearchFolds(g, i, a, j, b, has[m - 1], hbs, |hbs|, remaining, matrix, sweep);
      FoldAppend(best, prev, row);
      assert ProbeGrid(i, a, j, b, has, hbs, m, remaining, matrix, sweep) == prev + row;
      assert ProbeGridSearch(best, i, a, j, b, has, hbs, m, remaining, matrix, sweep) ==
             ProbeRowSearch(g, i, a, j, b, has[m - 1], hbs, |hbs|, remaining, matrix, sweep);
      assert g == FoldOffer(best, prev);
      assert ProbeRowSearch(g, i, a, j, b, has[m - 1], hbs, |hbs|, remaining, matrix, sweep) == FoldOffer(g, row);
      assert FoldOffer(best, prev + row) == FoldOffer(g, row);
    } else {
      assert ProbeGrid(i, a, j, b, has, hbs, m, remaining, matrix, sweep) == [];
    }
  }

  /** The pair loop's body offers the pair's hits in order. */
  lemma PairSearchFolds(best: Best, i: nat, a: Body, j: nat, b: Body, remaining: real, matrix: Matrix,
                        sweep: Sweeper)
    ensures PairSearch(best, i, a, j, b, remaining, matrix, sweep) ==
            FoldOffer(best, PairsWith(remaining, matrix, sweep)(i, a, j, b))
  {
    assert PairsWith(remaining, matrix, sweep)(i, a, j, b) == PairContacts(i, a, j, b, remaining, matrix, sweep);
    if Tested(a, b) {
      ProbeGridSearchFolds(best, i, a, j, b, a.hitboxes.value, b.hitboxes.value, |a.hitboxes.value|,
                           remaining, matrix, sweep);
    }
  }

  /** The pair step offers each pair's hits, in order. */
  ghost predicate StepFolds(step: PairStep, pairs: PairHits) {
    forall best: Best, i: nat, a: Body, j: nat, b: Body ::
      step(best, i, a, j, b) == FoldOffer(best, pairs(i, a, j, b))
  }

  lemma PairStepFolds(remaining: real, matrix: Matrix, sweep: Sweeper)
    ensures StepFolds(PairStepWith(remaining, matrix, sweep), PairsWith(remaining, matrix, sweep))
  {
    forall best: Best, i: nat, a: Body, j: nat, b: Body {
      PairSearchFolds(best, i, a, j, b, remaining, matrix, sweep);
    }
  }

  /** The inner pair loop offers the row's hits in order. */
  lemma {:induction false} RowSearchFolds(best: Best, bs: seq<Body>, i: nat, k: nat, step: PairStep, pairs: PairHits)
    requires i < k <= |bs| && StepFolds(step, pairs)
    ensures RowSearch(best, bs, i, k, step) == FoldOffer(best, RowContacts(bs, i, k, pairs))
    decreases k
  {
    if k > i + 1 {
      var s := RowSearch(best, bs, i, k - 1, step);
      RowSearchFolds(best, bs, i, k - 1, step, pairs);
      FoldAppend(best, RowContacts(bs, i, k - 1, pairs), pairs(i, bs[i], k - 1, bs[k - 1]));
    }
  }

  /** The outer pair loop offers all the hits in the loops' order. */
  lemma {:induction false} AllSearchFolds(best: Best, bs: seq<Body>, m: nat, step: PairStep, pairs: PairHits)
    requires m <= |bs| && StepFolds(step, pairs)
    ensures AllSearch(best, bs, m, step) == FoldOffer(best, AllContacts(bs, m, pairs))
    decreases m
  {
    if m > 0 {
      var s := AllSearch(best, bs, m - 1, step);
      AllSearchFolds(best, bs, m - 1, step, pairs);
      RowSearchFolds(s, bs, m - 1, |bs|, step, pairs);
      FoldAppend(best, AllContacts(bs, m - 1, pairs), RowContacts(bs, m - 1, |bs|, pairs));
    }
  }

  /** The two pair loops search the hits of all pairs in the loops' order. */
  lemma EarliestFolds(bs: seq<Body>, remaining: real, matrix: Matrix, sweep: Sweeper)
    ensures Earliest(bs, remaining, matrix, sweep) ==
            FoldOffer(Best(remaining, None), AllContacts(bs, |bs|, PairsWith(remaining, matrix, sweep)))
  {
    PairStepFolds(remaining, matrix, sweep);
    AllSearchFolds(Best(remaining, None), bs, |bs|, PairStepWith(remaining, matrix, sweep),
                   PairsWith(remaining, matrix, sweep));
  }

  /** Offering the hits of xs and then those of ys is the search over xs + ys. */
  lemma {:induction false} FoldAppend(best: Best, xs: seq<Contact>, ys: seq<Contact>)
    ensures FoldOffer(best, xs + ys) == FoldOffer(FoldOffer(best, xs), ys)
  {
    FoldPrefixAppend(best, xs, ys, |ys|);
  }

  /** The first n steps over xs + ys only see xs. */
  lemma {:induction false} FoldPrefixOfPrefix(best: Best, xs: seq<Contact>, ys: seq<Contact>, n: nat)
    requires n <= |xs|
    ensures FoldPrefix(best, xs + ys, n) == FoldPrefix(best, xs, n)
    decreases n
  {
    if n > 0 {
      FoldPrefixOfPrefix(best, xs, ys, n - 1);
      assert (xs + ys)[n - 1] == xs[n - 1];
    }
  }

  /** Past xs, the search over xs + ys continues over ys from the result for xs. */
  lemma {:induction false} FoldPrefixAppend(best: Best, xs: seq<Contact>, ys: seq<Contact>, k: nat)
    requires k <= |ys|
    ensures FoldPrefix(best, xs + ys, |xs| + k) == FoldPrefix(FoldOffer(best, xs), ys, k)
    decreases k
  {
    if k == 0 {
      FoldPrefixOfPrefix(best, xs, ys, |xs|);
    } else {
      FoldPrefixAppend(best, xs, ys, k - 1);
      assert (xs + ys)[|xs| + k - 1] == ys[k - 1];
    }
  }

  /** The search keeps the first of the strictly smallest impacts below the initial
      bound: the kept hit is in the list, nothing in the list is earlier, every hit
      before it is later, and with nothing below the bound nothing is kept. */
  lemma FoldOfferIsFirstMinimum(bound: real, cs: seq<Contact>)
    ensures var r := FoldOffer(Best(bound, None), cs);
      && r.earliest <= bound
      && (r.choice.None? <==> forall m :: 0 <= m < |cs| ==> cs[m].impact >= bound)
      && (r.choice.None? ==> r.earliest == bound)
      && (r.choice.Some? ==> exists k :: 0 <= k < |cs| && cs[k] == r.choice.value && r.earliest == cs[k].impact
                                       && r.earliest < bound && forall m :: 0 <= m < k ==> cs[m].impact > r.earliest)
      && (forall m :: 0 <= m < |cs| ==> cs[m].impact >= r.earliest)
  {
    FoldPrefixIsFirstMinimum(bound, cs, |cs|);
  }

  /** FoldOfferIsFirstMinimum for the first n hits. */
  lemma {:induction false} FoldPrefixIsFirstMinimum(bound: real, cs: seq<Contact>, n: nat)
    requires n <= |cs|
    ensures var r := FoldPrefix(Best(bound, None), cs, n);
      && r.earliest <= bound
      && (r.choice.None? <==> forall m :: 0 <= m < n ==> cs[m].impact >= bound)
      && (r.choice.None? ==> r.earliest == bound)
      && (r.choice.Some? ==> exists k :: 0 <= k < n && cs[k] == r.choice.value && r.earliest == cs[k].impact
                                       && r.earliest < bound && forall m :: 0 <= m < k ==> cs[m].impact > r.earliest)
      && (forall m :: 0 <= m < n ==> cs[m].impact >= r.earliest)
    decreases n
  {
    if n > 0 {
      FoldPrefixIsFirstMinimum(bound, cs, n - 1);
      var p := FoldPrefix(Best(bound, None), cs, n - 1);
      var last := cs[n - 1];
      var r := FoldPrefix(Best(bound, None), cs, n);
      assert r == Offer(p, last);
      if last.impact < p.earliest {
        assert cs[n - 1] == r.choice.value;
      } else if p.choice.Some? {
        var k :| 0 <= k < n - 1 && cs[k] == p.choice.value && p.earliest == cs[k].impact
                 && p.earliest < bound && forall m :: 0 <= m < k ==> cs[m].impact > p.earliest;
        assert cs[k] == r.choice.value;
      }
    }
  }

  /** The innermost loop body: the search state after one hitbox pair. */
  method ConsiderHitboxes(best: Best, i: nat, a: Body, j: nat, b: Body, hA: Hitbox, hB: Hitbox, remaining: real,
                          matrix: Matrix, sweep: Sweeper) returns (r: Best)
    ensures r == FoldOffer(best, Probe(i, a, j, b, hA, hB, remaining, matrix, sweep))
  {
    if Lookup(matrix, hA.group, hB.group) {
      return best;
    }
    var dispA := a.velocity.Scale(remaining);
    var dispB := b.velocity.Scale(remaining);
    var res := sweep(hA.shape, a.position, dispA, hB.shape, b.position, dispB);
    r := KeepIfEarlier(best, res, i, j, remaining, hA.isTrigger || hB.isTrigger);
  }

  /** The rest of the innermost loop body: a miss is skipped; a hit's time of impact
      is clamped, its trigger flag set from the two hitboxes, and it is kept when
      strictly earlier than the earliest so far. */
  method KeepIfEarlier(best: Best, res: SweepResult, i: nat, j: nat, remaining: real, isTrigger: bool)
    returns (r: Best)
    ensures r == FoldOffer(best, HitOf(res, i, j, remaining, isTrigger))
  {
    r := best;
    if !res.hit {
      return;
    }
    var toi := Clamp01(res.toi);
    var impactTimeAbsolute := toi * remaining;
    var c := Contact(i, j, impactTimeAbsolute, res.normal, isTrigger);
    assert impactTimeAbsolute == Clamp01(res.toi) * remaining;
    assert HitOf(res, i, j, remaining, isTrigger)[0] == c;
    assert HitOf(res, i, j, remaining, isTrigger) == [c];
    assert FoldPrefix(best, [c], 0) == best;
    if impactTimeAbsolute < r.earliest {
      r := Best(impactTimeAbsolute, Some(c));
    }
  }

  /** The loop over b's hitboxes for one hitbox of a. */
  method ScanHitboxRow(best: Best, i: nat, a: Body, j: nat, b: Body, hA: Hitbox, hbs: seq<Hitbox>, remaining: real,
                       matrix: Matrix, sweep: Sweeper) returns (r: Best)
    ensures r == ProbeRowSearch(best, i, a, j, b, hA, hbs, |hbs|, remaining, matrix, sweep)
  {
    r := best;
    for q := 0 to |hbs|
      invariant r == ProbeRowSearch(best, i, a, j, b, hA, hbs, q, remaining, matrix, sweep)
    {
      r := ConsiderHitboxes(r, i, a, j, b, hA, hbs[q], remaining, matrix, sweep);
    }
  }

  /** The body of the pair loop: the guards, then the two hitbox loops. */
  method ScanPair(best: Best, i: nat, a: Body, j: nat, b: Body, remaining: real,
                  matrix: Matrix, sweep: Sweeper) returns (r: Best)
    ensures r == PairSearch(best, i, a, j, b, remaining, matrix, sweep)
  {
    r := best;
    if a.hitboxes.None? || b.hitboxes.None? {
      return;
    }
    if a.Anchored() && b.Anchored() {
      return;
    }
    var has, hbs := a.hitboxes.value, b.hitboxes.value;
    for p := 0 to |has|
      invariant r == ProbeGridSearch(best, i, a, j, b, has, hbs, p, remaining, matrix, sweep)
    {
      r := ScanHitboxRow(r, i, a, j, b, has[p], hbs, remaining, matrix, sweep);
    }
  }

  /** The inner pair loop for a fixed i: j runs from i + 1 to the end. */
  method ScanPairsFrom(best: Best, bs: seq<Body>, i: nat, remaining: real, matrix: Matrix,
                       sweep: Sweeper) returns (r: Best)
    requires i < |bs|
    ensures r == RowSearch(best, bs, i, |bs|, PairStepWith(remaining, matrix, sweep))
  {
    r := best;
    for j := i + 1 to |bs|
      invariant r == RowSearch(best, bs, i, j, PairStepWith(remaining, matrix, sweep))
    {
      r := ScanPair(r, i, bs[i], j, bs[j], remaining, matrix, sweep);
    }
  }

  /** The two pair loops of one pass of `World::Tick`. */
  method FindEarliest(bs: seq<Body>, remaining: real, matrix: Matrix, sweep: Sweeper) returns (r: Best)
    ensures r == Earliest(bs, remaining, matrix, sweep)
  {
    r := Best(remaining, None);
    for i := 0 to |bs|
      invariant r == AllSearch(Best(remaining, None), bs, i, PairStepWith(remaining, matrix, sweep))
    {
      r := ScanPairsFrom(r, bs, i, remaining, matrix, sweep);
    }
  }

  /** Every hit found names a pair (a, b) of the list with a < b. */
  lemma {:induction false} ProbeRowNamesPair(i: nat, a: Body, j: nat, b: Body, hA: Hitbox, hbs: seq<Hitbox>, n: nat,
                                             remaining: real, matrix: Matrix, sweep: Sweeper)
    requires n <= |hbs|
    ensures forall c :: c in ProbeRow(i, a, j, b, hA, hbs, n, remaining, matrix, sweep) ==> c.a == i && c.b == j
    decreases n
  {
    if n > 0 {
      ProbeRowNamesPair(i, a, j, b, hA, hbs, n - 1, remaining, matrix, sweep);
    }
  }

  lemma {:induction false} ProbeGridNamesPair(i: nat, a: Body, j: nat, b: Body, has: seq<Hitbox>, hbs: seq<Hitbox>, m: nat,
                                              remaining: real, matrix: Matrix, sweep: Sweeper)
    requires m <= |has|
    ensures forall c :: c in ProbeGrid(i, a, j, b, has, hbs, m, remaining, matrix, sweep) ==> c.a == i && c.b == j
    decreases m
  {
    if m > 0 {
      var prev := ProbeGrid(i, a, j, b, has, hbs, m - 1, remaining, matrix, sweep);
      var row := ProbeRow(i, a, j, b, has[m - 1], hbs, |hbs|, remaining, matrix, sweep);
      ProbeGridNamesPair(i, a, j, b, has, hbs, m - 1, remaining, matrix, sweep);
      ProbeRowNamesPair(i, a, j, b, has[m - 1], hbs, |hbs|, remaining, matrix, sweep);
      PairNamesConcat(prev, row, i, j);
      assert ProbeGrid(i, a, j, b, has, hbs, m, remaining, matrix, sweep) == prev + row;
    }
  }

  /** Two lists of hits on the pair (i, j) concatenate to one. */
  lemma PairNamesConcat(xs: seq<Contact>, ys: seq<Contact>, i: nat, j: nat)
    requires forall c :: c in xs ==> c.a == i && c.b == j
    requires forall c :: c in ys ==> c.a == i && c.b == j
    ensures forall c :: c in xs + ys ==> c.a == i && c.b == j
  {
  }

  lemma {:induction false} RowContactsNamePairs(bs: seq<Body>, i: nat, k: nat, pairs: PairHits)
    requires i < k <= |bs|
    requires NamesItsPair(pairs)
    ensures forall c :: c in RowContacts(bs, i, k, pairs) ==> c.a == i && i < c.b < k
    decreases k
  {
    if k > i + 1 {
      var prev, last := RowContacts(bs, i, k - 1, pairs), pairs(i, bs[i], k - 1, bs[k - 1]);
      RowContactsNamePairs(bs, i, k - 1, pairs);
      assert RowContacts(bs, i, k, pairs) == prev + last;
    }
  }

  lemma {:induction false} AllContactsNamePairs(bs: seq<Body>, m: nat, pairs: PairHits)
    requires m <= |bs|
    requires NamesItsPair(pairs)
    ensures forall c :: c in AllContacts(bs, m, pairs) ==> c.a < m && c.a < c.b < |bs|
    decreases m
  {
    if m > 0 {
      var prev, row := AllContacts(bs, m - 1, pairs), RowContacts(bs, m - 1, |bs|, pairs);
      AllContactsNamePairs(bs, m - 1, pairs);
      RowContactsNamePairs(bs, m - 1, |bs|, pairs);
      assert AllContacts(bs, m, pairs) == prev + row;
    }
  }

  /** A pair that is not examined leaves the search as it is. */
  ghost predicate SkipsUntested(step: PairStep) {
    forall best: Best, i: nat, a: Body, j: nat, b: Body :: !Tested(a, b) ==> step(best, i, a, j, b) == best
  }

  /** The pass skips the pairs it does not examine. */
  lemma PairStepSkipsUntested(remaining: real, matrix: Matrix, sweep: Sweeper)
    ensures SkipsUntested(PairStepWith(remaining, matrix, sweep))
  {
  }

  /** Without hitbox components the pair loops keep their initial state. */
  lemma {:induction false} NoHitboxesSearchUnchanged(best: Best, bs: seq<Body>, m: nat, step: PairStep)
    requires m <= |bs|
    requires forall k :: 0 <= k < |bs| ==> bs[k].hitboxes.None?
    requires SkipsUntested(step)
    ensures AllSearch(best, bs, m, step) == best
    decreases m
  {
    if m > 0 {
      NoHitboxesSearchUnchanged(best, bs, m - 1, step);
      NoHitboxesRowUnchanged(best, bs, m - 1, |bs|, step);
    }
  }

  lemma {:induction false} NoHitboxesRowUnchanged(best: Best, bs: seq<Body>, i: nat, k: nat, step: PairStep)
    requires i < k <= |bs|
    requires forall k :: 0 <= k < |bs| ==> bs[k].hitboxes.None?
    requires SkipsUntested(step)
    ensures RowSearch(best, bs, i, k, step) == best
    decreases k
  {
    if k > i + 1 {
      NoHitboxesRowUnchanged(best, bs, i, k - 1, step);
      assert !Tested(bs[i], bs[k - 1]);
    }
  }

  // ---------------------------------------------------------------------------
  // ResolveCollision
  // ---------------------------------------------------------------------------

  /** `invMa`: one over the mass of a body with physical properties that is not
      anchored and has a positive mass; zero otherwise. */
  function InverseMass(b: Body): (r: real)
    ensures b.Anchored() || b.physical.None? ==> r == 0.0
    ensures 0.0 <= r
  {
    var m := if b.physical.Some? && !b.physical.value.anchored then b.physical.value.mass else 0.0;
    if m > 0.0 then 1.0 / m else 0.0
  }

  /** `relN`: the relative velocity along the normal. */
  function RelativeNormalSpeed(a: Body, b: Body, n: Vec2): real {
    a.velocity.Sub(b.velocity).Dot(n)
  }

  /** Whether the impulse is applied: not both immovable, approaching along n. */
  predicate Impacts(a: Body, b: Body, n: Vec2) {
    && !(InverseMass(a) == 0.0 && InverseMass(b) == 0.0)
    && RelativeNormalSpeed(a, b, n) < 0.0
    && InverseMass(a) + InverseMass(b) > 0.0
  }

  /** `accA -= accN * n` when `accN = accA . n` is negative. */
  function Damped(acc: Vec2, dir: Vec2): (r: Vec2)
    ensures acc.Dot(dir) >= 0.0 ==> r == acc
  {
    var accN := acc.Dot(dir);
    if accN < 0.0 then acc.Sub(dir.Scale(accN)) else acc
  }

  /** What the impulse does to a body that is not anchored: its velocity changes by
      dv, its acceleration (if it has physical properties) is damped along dir, and
      it is moved by shift. An anchored body is left alone. */
  function Pushed(x: Body, dv: Vec2, dir: Vec2, shift: Vec2): (r: Body)
    ensures x.Anchored() ==> r == x
    ensures !x.Anchored() ==> r.velocity == x.velocity.Add(dv) && r.position == x.position.Add(shift)
    ensures r.physical == x.physical && r.hitboxes == x.hitboxes
  {
    if x.Anchored() then x
    else x.(velocity := x.velocity.Add(dv),
            acceleration := if x.physical.Some? then Damped(x.acceleration, dir) else x.acceleration,
            position := x.position.Add(shift))
  }

  /** `j`: the magnitude of the impulse that cancels the approach. */
  function ImpulseSize(a: Body, b: Body, n: Vec2): real
    requires Impacts(a, b, n)
  {
    -RelativeNormalSpeed(a, b, n) / (InverseMass(a) + InverseMass(b))
  }

  /** The two bodies after the impulse of magnitude j with inverse masses invA and
      invB: a gains `impulse * invMa` and moves along n, b loses `impulse * invMb`
      and moves against n. */
  function ResolvedWith(a: Body, b: Body, n: Vec2, j: real, invA: real, invB: real): (r: (Body, Body))
    requires invA + invB > 0.0
    ensures r.0.physical == a.physical && r.0.hitboxes == a.hitboxes
    ensures r.1.physical == b.physical && r.1.hitboxes == b.hitboxes
    ensures a.Anchored() ==> r.0 == a
    ensures b.Anchored() ==> r.1 == b
  {
    var impulse := n.Scale(j);
    (Pushed(a, impulse.Scale(invA), n, n.Scale(Bias * invA / (invA + invB))),
     Pushed(b, impulse.Scale(invB).Neg(), n.Neg(), n.Neg().Scale(Bias * invB / (invA + invB))))
  }

  /** The two bodies after `ResolveCollision(a, b, n)`. */
  function Resolved(a: Body, b: Body, n: Vec2): (r: (Body, Body))
    ensures !Impacts(a, b, n) ==> r == (a, b)
    ensures Impacts(a, b, n) ==> r == ResolvedWith(a, b, n, ImpulseSize(a, b, n), InverseMass(a), InverseMass(b))
    ensures r.0.physical == a.physical && r.0.hitboxes == a.hitboxes
    ensures r.1.physical == b.physical && r.1.hitboxes == b.hitboxes
    ensures a.Anchored() ==> r.0 == a
    ensures b.Anchored() ==> r.1 == b
  {
    if !Impacts(a, b, n) then (a, b)
    else ResolvedWith(a, b, n, ImpulseSize(a, b, n), InverseMass(a), InverseMass(b))
  }

  /** The `Moved` events of `ResolveCollision`: a, then b, each only when it is not
      anchored and its separation shift is nonzero. */
  function ResolveEvents(ia: nat, ib: nat, a: Body, b: Body, n: Vec2): seq<Event> {
    if !Impacts(a, b, n) then []
    else ResolveEventsWith(ia, ib, a, b, n, InverseMass(a), InverseMass(b))
  }

  /** The separation moves' events with the inverse masses invA and invB. */
  function ResolveEventsWith(ia: nat, ib: nat, a: Body, b: Body, n: Vec2, invA: real, invB: real): seq<Event>
    requires invA + invB > 0.0
  {
    (if a.Anchored() then [] else MoveEvents(ia, a, n.Scale(Bias * invA / (invA + invB)))) +
    (if b.Anchored() then [] else MoveEvents(ib, b, n.Neg().Scale(Bias * invB / (invA + invB))))
  }

  /** The list after resolving the pair (ia, ib). */
  function ResolvedAt(bs: seq<Body>, ia: nat, ib: nat, n: Vec2): (r: seq<Body>)
    requires ia < |bs| && ib < |bs|
    ensures |r| == |bs|
  {
    var p := Resolved(bs[ia], bs[ib], n);
    bs[ia := p.0][ib := p.1]
  }

  /** Without an impact the list and the log are left as they are; with one, the two
      bodies are replaced by the impulse's results and their moves are logged. */
  lemma ResolvedAtCases(bs: seq<Body>, ia: nat, ib: nat, n: Vec2)
    requires ia < |bs| && ib < |bs| && ia != ib
    ensures !Impacts(bs[ia], bs[ib], n) ==> ResolvedAt(bs, ia, ib, n) == bs && ResolveEvents(ia, ib, bs[ia], bs[ib], n) == []
    ensures Impacts(bs[ia], bs[ib], n) ==>
      var inv := (InverseMass(bs[ia]), InverseMass(bs[ib]));
      var r := ResolvedWith(bs[ia], bs[ib], n, ImpulseSize(bs[ia], bs[ib], n), inv.0, inv.1);
      && ResolvedAt(bs, ia, ib, n) == bs[ia := r.0][ib := r.1]
      && ResolveEvents(ia, ib, bs[ia], bs[ib], n) == ResolveEventsWith(ia, ib, bs[ia], bs[ib], n, inv.0, inv.1)
  {
    if !Impacts(bs[ia], bs[ib], n) {
      assert bs[ia := bs[ia]][ib := bs[ib]] == bs;
    }
  }

  /** Adding a multiple of n to a vector adds that multiple of n . n to its
      projection on n. */
  lemma AddAlongDot(v: Vec2, n: Vec2, c: real)
    ensures v.Add(n.Scale(c)).Dot(n) == v.Dot(n) + c * n.LengthSquared()
  {
    assert v.Add(n.Scale(c)).Dot(n) == (v.x + n.x * c) * n.x + (v.y + n.y * c) * n.y;
  }

  lemma ScaleTwice(v: Vec2, p: real, q: real)
    ensures v.Scale(p).Scale(q) == v.Scale(p * q)
    ensures v.Scale(p).Scale(q).Neg() == v.Scale(-(p * q))
    ensures v.Neg().Scale(p) == v.Scale(-p)
  {
    assert (v.x * p) * q == v.x * (p * q);
    assert (v.y * p) * q == v.y * (p * q);
  }

  /** With the impulse's own numbers: each velocity changes along n only, a's by
      j * invA and b's by -j * invB (an anchored body has inverse mass zero). */
  lemma VelocitiesWith(a: Body, b: Body, n: Vec2, j: real, invA: real, invB: real)
    requires invA + invB > 0.0
    requires a.Anchored() ==> invA == 0.0
    requires b.Anchored() ==> invB == 0.0
    ensures ResolvedWith(a, b, n, j, invA, invB).0.velocity == a.velocity.Add(n.Scale(j * invA))
    ensures ResolvedWith(a, b, n, j, invA, invB).1.velocity == b.velocity.Add(n.Scale(-(j * invB)))
  {
    ScaleTwice(n, j, invA);
    ScaleTwice(n, j, invB);
  }

  /** The two velocity changes together: the relative velocity gains
      j * (invA + invB) * n. */
  lemma RelativeVelocityWith(a: Body, b: Body, n: Vec2, j: real, invA: real, invB: real)
    requires invA + invB > 0.0
    requires a.Anchored() ==> invA == 0.0
    requires b.Anchored() ==> invB == 0.0
    ensures var r := ResolvedWith(a, b, n, j, invA, invB);
      r.0.velocity.Sub(r.1.velocity) == a.velocity.Sub(b.velocity).Add(n.Scale(j * invA + j * invB))
  {
    VelocitiesWith(a, b, n, j, invA, invB);
  }

  /** Each velocity changes along n only: by a multiple of n (the exact multiples,
      j * invMa and -j * invMb, are those of `VelocitiesWith`). */
  lemma ResolveChangesVelocityAlongNormal(a: Body, b: Body, n: Vec2)
    ensures exists k: real :: Resolved(a, b, n).0.velocity == a.velocity.Add(n.Scale(k))
    ensures exists k: real :: Resolved(a, b, n).1.velocity == b.velocity.Add(n.Scale(k))
  {
    var r := Resolved(a, b, n);
    if Impacts(a, b, n) {
      var j, invA, invB := ImpulseSize(a, b, n), InverseMass(a), InverseMass(b);
      assert r == ResolvedWith(a, b, n, j, invA, invB);
      VelocitiesWith(a, b, n, j, invA, invB);
      assert r.0.velocity == a.velocity.Add(n.Scale(j * invA));
      assert r.1.velocity == b.velocity.Add(n.Scale(-(j * invB)));
    } else {
      assert r.0.velocity == a.velocity.Add(n.Scale(0.0));
      assert r.1.velocity == b.velocity.Add(n.Scale(0.0));
    }
  }

  /** The impulse's magnitude times the summed inverse masses cancels the
      approach speed. */
  lemma ImpulseCancels(a: Body, b: Body, n: Vec2)
    requires Impacts(a, b, n)
    ensures ImpulseSize(a, b, n) * (InverseMass(a) + InverseMass(b)) == -RelativeNormalSpeed(a, b, n)
  {
    DivMul(-RelativeNormalSpeed(a, b, n), InverseMass(a) + InverseMass(b));
  }

  /** With the impulse's own numbers: when j * (invA + invB) cancels the approach
      speed along a unit n, the bodies' relative speed along n is zero afterwards. */
  lemma StopsApproachWith(a: Body, b: Body, n: Vec2, j: real, invA: real, invB: real)
    requires invA + invB > 0.0
    requires a.Anchored() ==> invA == 0.0
    requires b.Anchored() ==> invB == 0.0
    requires n.LengthSquared() == 1.0
    requires j * (invA + invB) == -RelativeNormalSpeed(a, b, n)
    ensures var r := ResolvedWith(a, b, n, j, invA, invB);
      RelativeNormalSpeed(r.0, r.1, n) == 0.0
  {
    RelativeVelocityWith(a, b, n, j, invA, invB);
    Distribute(j, invA, invB);
    CancelAlong(a.velocity.Sub(b.velocity), n, j * invA + j * invB);
  }

  lemma Distribute(j: real, p: real, q: real)
    ensures j * (p + q) == j * p + j * q
  {
  }

  /** Adding -(v . n) times a unit n to v leaves nothing along n. */
  lemma CancelAlong(v: Vec2, n: Vec2, c: real)
    requires n.LengthSquared() == 1.0
    requires c == -v.Dot(n)
    ensures v.Add(n.Scale(c)).Dot(n) == 0.0
  {
    AddAlongDot(v, n, c);
    UnitFactor(c, n.LengthSquared());
  }

  lemma UnitFactor(c: real, u: real)
    requires u == 1.0
    ensures c * u == c
  {
  }

  /** For a unit normal, the bodies no longer approach after the impulse: their
      relative velocity along n is zero. */
  lemma ResolveStopsApproach(a: Body, b: Body, n: Vec2)
    requires Impacts(a, b, n) && n.LengthSquared() == 1.0
    ensures RelativeNormalSpeed(Resolved(a, b, n).0, Resolved(a, b, n).1, n) == 0.0
  {
    ImpulseCancels(a, b, n);
    StopsApproachWith(a, b, n, ImpulseSize(a, b, n), InverseMass(a), InverseMass(b));
  }

  /** Damping removes a pushing component: afterwards the acceleration does not
      point against dir (for a unit dir). */
  lemma DampedStopsPushing(acc: Vec2, dir: Vec2)
    requires dir.LengthSquared() == 1.0
    ensures Damped(acc, dir).Dot(dir) >= 0.0
  {
    var accN := acc.Dot(dir);
    if accN < 0.0 {
      assert acc.Sub(dir.Scale(accN)) == acc.Add(dir.Scale(-accN));
      AddAlongDot(acc, dir, -accN);
    }
  }

  /** A movable body with physical properties loses the part of its acceleration
      that pushes into the contact (against n for a, along n for b); one that does
      not push keeps its acceleration. */
  lemma ResolveDampsAcceleration(a: Body, b: Body, n: Vec2)
    requires Impacts(a, b, n) && n.LengthSquared() == 1.0
    ensures !a.Anchored() && a.physical.Some? ==>
      && Resolved(a, b, n).0.acceleration.Dot(n) >= 0.0
      && (a.acceleration.Dot(n) >= 0.0 ==> Resolved(a, b, n).0.acceleration == a.acceleration)
    ensures !b.Anchored() && b.physical.Some? ==>
      && Resolved(a, b, n).1.acceleration.Dot(n.Neg()) >= 0.0
      && (b.acceleration.Dot(n.Neg()) >= 0.0 ==> Resolved(a, b, n).1.acceleration == b.acceleration)
  {
    DampedStopsPushing(a.acceleration, n);
    assert n.Neg().LengthSquared() == n.LengthSquared();
    DampedStopsPushing(b.acceleration, n.Neg());
  }

  /** Two points shifted along n by sA and against n by sB end sA + sB further
      apart along n. */
  lemma ShiftsApart(pa: Vec2, pb: Vec2, n: Vec2, sA: real, sB: real)
    ensures pa.Add(n.Scale(sA)).Sub(pb.Add(n.Neg().Scale(sB))) == pa.Sub(pb).Add(n.Scale(sA + sB))
  {
    assert n.x * (sA + sB) == n.x * sA + n.x * sB;
    assert n.y * (sA + sB) == n.y * sA + n.y * sB;
  }

  /** With the impulse's own numbers: a moves by sA along n and b by sB against n,
      where sA and sB are the bias shares. */
  lemma PositionsWith(a: Body, b: Body, n: Vec2, j: real, invA: real, invB: real)
    requires invA + invB > 0.0
    requires a.Anchored() ==> invA == 0.0
    requires b.Anchored() ==> invB == 0.0
    ensures var r := ResolvedWith(a, b, n, j, invA, invB);
      r.0.position.Sub(r.1.position) == a.position.Sub(b.position).Add(n.Scale(Bias * invA / (invA + invB) + Bias * invB / (invA + invB)))
  {
    var r := ResolvedWith(a, b, n, j, invA, invB);
    var sA, sB := Bias * invA / (invA + invB), Bias * invB / (invA + invB);
    if a.Anchored() {
      assert sA == 0.0;
      assert n.Scale(sA) == Zero2;
    }
    if b.Anchored() {
      assert sB == 0.0;
      assert n.Neg().Scale(sB) == Zero2;
    }
    assert r.0.position == a.position.Add(n.Scale(sA));
    assert r.1.position == b.position.Add(n.Neg().Scale(sB));
    ShiftsApart(a.position, b.position, n, sA, sB);
  }

  /** The separation shifts move the bodies apart along n by `separationBias` times
      n . n in all, shared in proportion to the inverse masses. */
  lemma ResolveSeparates(a: Body, b: Body, n: Vec2)
    requires Impacts(a, b, n)
    ensures var r := Resolved(a, b, n);
      r.0.position.Sub(r.1.position).Dot(n) == a.position.Sub(b.position).Dot(n) + Bias * n.LengthSquared()
  {
    var invA, invB := InverseMass(a), InverseMass(b);
    var sum := invA + invB;
    PositionsWith(a, b, n, ImpulseSize(a, b, n), invA, invB);
    ShareSum(invA, invB);
    AddAlongDot(a.position.Sub(b.position), n, Bias);
  }

  /** The two shares of the bias add up to the bias. */
  lemma ShareSum(invA: real, invB: real)
    requires invA + invB > 0.0
    ensures Bias * invA / (invA + invB) + Bias * invB / (invA + invB) == Bias
  {
    var sum := invA + invB;
    assert Bias * invA / sum + Bias * invB / sum == (Bias * invA + Bias * invB) / sum;
    assert Bias * invA + Bias * invB == Bias * sum;
    DivMul(Bias, sum);
  }

  /** `std::min(MIN_STEP, remaining)` when the contact is earlier than `MIN_STEP`. */
  function StepOf(earliest: real, remaining: real): real {
    if earliest < MinStep then RMin(MinStep, remaining) else earliest
  }

  /** Two lists that differ at most in positions, velocities and accelerations. */
  predicate SameShapes(bs: seq<Body>, cs: seq<Body>) {
    |bs| == |cs| && forall k :: 0 <= k < |bs| ==> bs[k].physical == cs[k].physical && bs[k].hitboxes == cs[k].hitboxes
  }

  /** One pass of the substep loop's body, for `remaining > EPS`: the list after
      it, the events it raised and the new `remaining`. With no contact every body
      that is not anchored flies the whole remaining time; with one, all advance by
      the step, both objects' collision hooks run and the pair is resolved. */
  function Substep(bs: seq<Body>, remaining: real, matrix: Matrix, sweep: Sweeper): (r: (seq<Body>, seq<Event>, real))
    requires remaining > TimeEps
    ensures SameShapes(bs, r.0)
    ensures 0.0 <= r.2 <= remaining - RMin(MinStep, remaining)
  {
    var best := Earliest(bs, remaining, matrix, sweep);
    EarliestFolds(bs, remaining, matrix, sweep);
    FoldOfferIsFirstMinimum(remaining, AllContacts(bs, |bs|, PairsWith(remaining, matrix, sweep)));
    match best.choice
    case None => (AdvancedAll(bs, remaining), AdvanceEvents(bs, remaining, |bs|), 0.0)
    case Some(c) =>
      PairsWithNamesItsPair(remaining, matrix, sweep);
      AllContactsNamePairs(bs, |bs|, PairsWith(remaining, matrix, sweep));
      var step := StepOf(best.earliest, remaining);
      var moved := AdvancedAll(bs, step);
      (ResolvedAt(moved, c.a, c.b, c.normal),
       AdvanceEvents(bs, step, |bs|) + [Collided(c.a, c.b), Collided(c.b, c.a)]
         + ResolveEvents(c.a, c.b, moved[c.a], moved[c.b], c.normal),
       remaining - step)
  }

  /** The substep loop `while (remaining > EPS)`: the list, the events and the
      `remaining` it ends with. */
  function Settle(bs: seq<Body>, remaining: real, matrix: Matrix, sweep: Sweeper): (r: (seq<Body>, seq<Event>, real))
    decreases if remaining > TimeEps then (remaining * 1000000.0).Floor else 0
  {
    if remaining <= TimeEps then (bs, [], remaining)
    else
      var s := Substep(bs, remaining, matrix, sweep);
      var t := Settle(s.0, s.2, matrix, sweep);
      (t.0, s.1 + t.1, t.2)
  }

  /** The loop changes positions, velocities and accelerations only: every object
      keeps its physical properties and hitboxes, and none is added or removed. */
  lemma {:induction false} SettleKeepsShapes(bs: seq<Body>, remaining: real, matrix: Matrix, sweep: Sweeper)
    ensures SameShapes(bs, Settle(bs, remaining, matrix, sweep).0)
    decreases if remaining > TimeEps then (remaining * 1000000.0).Floor else 0
  {
    if remaining > TimeEps {
      var s := Substep(bs, remaining, matrix, sweep);
      SettleKeepsShapes(s.0, s.2, matrix, sweep);
      assert Settle(bs, remaining, matrix, sweep).0 == Settle(s.0, s.2, matrix, sweep).0;
    }
  }

  /** When the loop runs at all, it ends with 0 <= remaining <= EPS: the time left
      is never negative. */
  lemma {:induction false} SettleEndsBelowEps(bs: seq<Body>, remaining: real, matrix: Matrix, sweep: Sweeper)
    requires remaining > TimeEps
    ensures 0.0 <= Settle(bs, remaining, matrix, sweep).2 <= TimeEps
    decreases (remaining * 1000000.0).Floor
  {
    var s := Substep(bs, remaining, matrix, sweep);
    assert Settle(bs, remaining, matrix, sweep).2 == Settle(s.0, s.2, matrix, sweep).2;
    if s.2 > TimeEps {
      SettleEndsBelowEps(s.0, s.2, matrix, sweep);
    }
  }

  /** With no hitbox component anywhere the loop runs once: every body that is
      not anchored flies the whole interval and the time left is 0. */
  lemma SettleFreeFlight(bs: seq<Body>, remaining: real, matrix: Matrix, sweep: Sweeper)
    requires remaining > TimeEps
    requires forall k :: 0 <= k < |bs| ==> bs[k].hitboxes.None?
    ensures Settle(bs, remaining, matrix, sweep) == (AdvancedAll(bs, remaining), AdvanceEvents(bs, remaining, |bs|), 0.0)
  {
    PairStepSkipsUntested(remaining, matrix, sweep);
    NoHitboxesSearchUnchanged(Best(remaining, None), bs, |bs|, PairStepWith(remaining, matrix, sweep));
    assert Earliest(bs, remaining, matrix, sweep) == Best(remaining, None);
    var s := Substep(bs, remaining, matrix, sweep);
    assert s == (AdvancedAll(bs, remaining), AdvanceEvents(bs, remaining, |bs|), 0.0);
    assert Settle(s.0, s.2, matrix, sweep) == (s.0, [], 0.0);
    assert s.1 + [] == s.1;
    assert Settle(bs, remaining, matrix, sweep) == (s.0, s.1 + [], 0.0);
  }

  // ---------------------------------------------------------------------------
  // The world's physics state
  // ---------------------------------------------------------------------------

  class World {
    var bodies: seq<Body>
    var events: seq<Event>

    constructor(bs: seq<Body>)
      ensures bodies == bs && events == []
    {
      bodies := bs;
      events := [];
    }

    /** `GameObject::Move(delta)` on the object at i. */
    method Move(i: nat, delta: Vec2)
      requires i < |bodies|
      modifies this
      ensures bodies == old(bodies)[i := Moving(old(bodies)[i], delta)]
      ensures events == old(events) + MoveEvents(i, old(bodies)[i], delta)
    {
      var b := bodies[i];
      bodies := bodies[i := b.(position := b.position.Add(delta))];
      if delta.LengthSquared() != 0.0 {
        events := events + [Moved(i, bodies[i].position)];
      }
    }

    /** `GameObject::SetVelocity` on the object at i. */
    method SetVelocity(i: nat, v: Vec2)
      requires i < |bodies|
      modifies this
      ensures bodies == old(bodies)[i := old(bodies)[i].(velocity := v)]
      ensures events == old(events)
    {
      bodies := bodies[i := bodies[i].(velocity := v)];
    }

    /** `GameObject::SetAcceleration` on the object at i. */
    method SetAcceleration(i: nat, acc: Vec2)
      requires i < |bodies|
      modifies this
      ensures bodies == old(bodies)[i := old(bodies)[i].(acceleration := acc)]
      ensures events == old(events)
    {
      bodies := bodies[i := bodies[i].(acceleration := acc)];
    }

    /** The integration loop at the start of `World::Tick`: each body in turn gets
        its velocity update, then its `Tick` hook runs. */
    method Integrate(dt: real)
      modifies this
      ensures bodies == IntegratedAll(old(bodies), dt)
      ensures events == old(events) + TickEvents(|old(bodies)|, dt)
    {
      for i := 0 to |bodies|
        invariant |bodies| == |old(bodies)|
        invariant forall k :: 0 <= k < i ==> bodies[k] == Integrated(old(bodies)[k], dt)
        invariant forall k :: i <= k < |bodies| ==> bodies[k] == old(bodies)[k]
        invariant events == old(events) + TickEvents(i, dt)
      {
        var b := bodies[i];
        if b.physical.Some? && !b.physical.value.anchored {
          SetVelocity(i, b.velocity.Add(b.acceleration.Scale(dt)));
        }
        assert TickEvents(i + 1, dt) == TickEvents(i, dt) + [Ticked(i, dt)];
        events := events + [Ticked(i, dt)];
      }
    }

    /** The loops that move every body that is not anchored by its velocity times
        step. */
    method Advance(step: real)
      modifies this
      ensures bodies == AdvancedAll(old(bodies), step)
      ensures events == old(events) + AdvanceEvents(old(bodies), step, |old(bodies)|)
    {
      for i := 0 to |bodies|
        invariant |bodies| == |old(bodies)|
        invariant forall k :: 0 <= k < i ==> bodies[k] == Advanced(old(bodies)[k], step)
        invariant forall k :: i <= k < |bodies| ==> bodies[k] == old(bodies)[k]
        invariant events == old(events) + AdvanceEvents(old(bodies), step, i)
      {
        if !bodies[i].Anchored() {
          Move(i, bodies[i].velocity.Scale(step));
        }
      }
    }

    /** `World::ResolveCollision(a, b, n)` for the objects at ia and ib: nothing
        when both are immovable or they do not approach along n; otherwise the
        inelastic impulse, the acceleration damping and the separation shifts. */
    method ResolveCollision(ia: nat, ib: nat, n: Vec2)
      requires ia < |bodies| && ib < |bodies| && ia != ib
      modifies this
      ensures bodies == ResolvedAt(old(bodies), ia, ib, n)
      ensures events == old(events) + ResolveEvents(ia, ib, old(bodies)[ia], old(bodies)[ib], n)
    {
      var a, b := bodies[ia], bodies[ib];
      var anchoredA, anchoredB := a.Anchored(), b.Anchored();
      var ma := if a.physical.Some? && !anchoredA then a.physical.value.mass else 0.0;
      var mb := if b.physical.Some? && !anchoredB then b.physical.value.mass else 0.0;
      var invMa := if ma > 0.0 then 1.0 / ma else 0.0;
      var invMb := if mb > 0.0 then 1.0 / mb else 0.0;
      assert invMa == InverseMass(a) && invMb == InverseMass(b);
      ResolvedAtCases(bodies, ia, ib, n);
      if invMa == 0.0 && invMb == 0.0 {
        return;
      }
      var relN := a.velocity.Sub(b.velocity).Dot(n);
      assert relN == RelativeNormalSpeed(a, b, n);
      if relN >= 0.0 {
        return;
      }
      var invMassSum := invMa + invMb;
      if invMassSum <= 0.0 {
        return;
      }
      var j := -(1.0 + Restitution) * relN / invMassSum;
      assert -(1.0 + Restitution) * relN == -RelativeNormalSpeed(a, b, n);
      assert j == ImpulseSize(a, b, n);
      ApplyImpulse(ia, ib, n, j, invMa, invMb);
    }

    /** The three updates of `ResolveCollision` once it applies: velocities, then
        accelerations, then the separation moves. */
    method ApplyImpulse(ia: nat, ib: nat, n: Vec2, j: real, invMa: real, invMb: real)
      requires ia < |bodies| && ib < |bodies| && ia != ib
      requires invMa + invMb > 0.0
      modifies this
      ensures var r := ResolvedWith(old(bodies)[ia], old(bodies)[ib], n, j, invMa, invMb);
        bodies == old(bodies)[ia := r.0][ib := r.1]
      ensures events == old(events) + ResolveEventsWith(ia, ib, old(bodies)[ia], old(bodies)[ib], n, invMa, invMb)
    {
      var a, b := bodies[ia], bodies[ib];
      var impulse := n.Scale(j);
      ImpulseStep(ia, ib, a, b, impulse, invMa, invMb);
      DampStep(ia, ib, a, b, n);
      var invMassSum := invMa + invMb;
      if !a.Anchored() {
        Move(ia, n.Scale(Bias * invMa / invMassSum));
      }
      if !b.Anchored() {
        Move(ib, n.Neg().Scale(Bias * invMb / invMassSum));
      }
    }

    /** The velocity updates of `ResolveCollision`. */
    method ImpulseStep(ia: nat, ib: nat, a: Body, b: Body, impulse: Vec2, invMa: real, invMb: real)
      requires ia < |bodies| && ib < |bodies| && ia != ib
      requires bodies[ia] == a && bodies[ib] == b
      modifies this
      ensures bodies == old(bodies)[ia := if a.Anchored() then a else a.(velocity := a.velocity.Add(impulse.Scale(invMa)))]
                                   [ib := if b.Anchored() then b else b.(velocity := b.velocity.Add(impulse.Scale(invMb).Neg()))]
      ensures events == old(events)
    {
      if !a.Anchored() {
        SetVelocity(ia, a.velocity.Add(impulse.Scale(invMa)));
      }
      if !b.Anchored() {
        var vb := b.velocity.Sub(impulse.Scale(invMb));
        assert vb == b.velocity.Add(impulse.Scale(invMb).Neg());
        SetVelocity(ib, vb);
      }
    }

    /** The acceleration damping of `ResolveCollision`: a's along n, b's along -n. */
    method DampStep(ia: nat, ib: nat, a: Body, b: Body, n: Vec2)
      requires ia < |bodies| && ib < |bodies| && ia != ib
      modifies this
      ensures bodies == old(bodies)[ia := if !a.Anchored() && a.physical.Some? then old(bodies)[ia].(acceleration := Damped(a.acceleration, n)) else old(bodies)[ia]]
                                   [ib := if !b.Anchored() && b.physical.Some? then old(bodies)[ib].(acceleration := Damped(b.acceleration, n.Neg())) else old(bodies)[ib]]
      ensures events == old(events)
    {
      if !a.Anchored() && a.physical.Some? {
        var accA := a.acceleration;
        var accN := accA.Dot(n);
        if accN < 0.0 {
          accA := accA.Sub(n.Scale(accN));
        }
        SetAcceleration(ia, accA);
      }
      if !b.Anchored() && b.physical.Some? {
        var accB := b.acceleration;
        var accN := accB.Dot(n.Neg());
        if accN < 0.0 {
          accB := accB.Sub(n.Neg().Scale(accN));
        }
        SetAcceleration(ib, accB);
      }
    }

    /** One pass of the substep loop's body: search the earliest contact, then
        either advance to it, run both collision hooks and resolve the pair (trigger
        or not), or fly the whole remaining time. */
    method RunSubstep(remaining: real, matrix: Matrix, sweep: Sweeper) returns (next: real)
      requires remaining > TimeEps
      modifies this
      ensures var s := Substep(old(bodies), remaining, matrix, sweep);
        bodies == s.0 && events == old(events) + s.1 && next == s.2
    {
      ghost var bs := bodies;
      var best := FindEarliest(bodies, remaining, matrix, sweep);
      EarliestFolds(bs, remaining, matrix, sweep);
      FoldOfferIsFirstMinimum(remaining, AllContacts(bs, |bs|, PairsWith(remaining, matrix, sweep)));
      if best.choice.Some? {
        var c := best.choice.value;
        PairsWithNamesItsPair(remaining, matrix, sweep);
        AllContactsNamePairs(bs, |bs|, PairsWith(remaining, matrix, sweep));
        var step := best.earliest;
        if step < MinStep {
          step := RMin(MinStep, remaining);
        }
        AdvanceAndResolve(step, c);
        next := remaining - step;
      } else {
        Advance(remaining);
        next := 0.0;
      }
    }

    /** The contact branch: advance every body by step, run A's then B's collision
        hook, and resolve the pair. */
    method AdvanceAndResolve(step: real, c: Contact)
      requires c.a < c.b < |bodies|
      modifies this
      ensures var moved := AdvancedAll(old(bodies), step);
        && bodies == ResolvedAt(moved, c.a, c.b, c.normal)
        && events == old(events) + (AdvanceEvents(old(bodies), step, |old(bodies)|) + [Collided(c.a, c.b), Collided(c.b, c.a)]
                                    + ResolveEvents(c.a, c.b, moved[c.a], moved[c.b], c.normal))
    {
      ghost var bs, e0 := bodies, events;
      Advance(step);
      ghost var moved, e1 := bodies, events;
      events := events + [Collided(c.a, c.b), Collided(c.b, c.a)];
      ResolveCollision(c.a, c.b, c.normal);
      assert events == e1 + [Collided(c.a, c.b), Collided(c.b, c.a)] + ResolveEvents(c.a, c.b, moved[c.a], moved[c.b], c.normal);
      assert e1 == e0 + AdvanceEvents(bs, step, |bs|);
    }

    /** `World::Tick(dt)`: integrate every velocity and run every `Tick` hook, then
        run the substep loop until no more than EPS of the interval is left. */
    method Tick(dt: real, matrix: Matrix, sqrt: real -> real)
      modifies this
      ensures var s := Settle(IntegratedAll(old(bodies), dt), dt, matrix, SweepWith(sqrt));
        bodies == s.0 && events == old(events) + TickEvents(|old(bodies)|, dt) + s.1
    {
      Integrate(dt);
      ghost var start, mid := bodies, events;
      ghost var target := Settle(start, dt, matrix, SweepWith(sqrt));
      var remaining := dt;
      while remaining > TimeEps
        invariant remaining == dt || 0.0 <= remaining < dt
        invariant Settle(bodies, remaining, matrix, SweepWith(sqrt)).0 == target.0
        invariant events + Settle(bodies, remaining, matrix, SweepWith(sqrt)).1 == mid + target.1
        decreases if remaining > TimeEps then (remaining * 1000000.0).Floor else 0
      {
        ghost var before, logged := bodies, events;
        var next := RunSubstep(remaining, matrix, SweepWith(sqrt));
        SettleUnfold(before, remaining, matrix, SweepWith(sqrt), logged);
        remaining := next;
      }
      assert Settle(bodies, remaining, matrix, SweepWith(sqrt)) == (bodies, [], remaining);
    }
  }

  /** One turn of the loop: the run from `bs` is the substep followed by the run
      from where it leaves off; with a log `logged` in front, the log after the
      substep followed by the rest of the run's events is the same sequence. */
  lemma SettleUnfold(bs: seq<Body>, remaining: real, matrix: Matrix, sweep: Sweeper, logged: seq<Event>)
    requires remaining > TimeEps
    ensures var s := Substep(bs, remaining, matrix, sweep);
      && Settle(bs, remaining, matrix, sweep).0 == Settle(s.0, s.2, matrix, sweep).0
      && logged + s.1 + Settle(s.0, s.2, matrix, sweep).1 == logged + Settle(bs, remaining, matrix, sweep).1
      && s.2 < remaining
      && (s.2 > TimeEps ==> (s.2 * 1000000.0).Floor < (remaining * 1000000.0).Floor)
  {
    var s := Substep(bs, remaining, matrix, sweep);
    var t := Settle(s.0, s.2, matrix, sweep);
    assert Settle(bs, remaining, matrix, sweep) == (t.0, s.1 + t.1, t.2);
    AppendAssoc(logged, s.1, t.1);
    FloorDrops(s.2, remaining);
  }

  lemma AppendAssoc(x: seq<Event>, y: seq<Event>, z: seq<Event>)
    ensures x + y + z == x + (y + z)
  {
  }

  /** A step of at least `MinStep` (or the whole interval) lowers the loop's measure. */
  lemma FloorDrops(next: real, remaining: real)
    requires remaining > TimeEps && 0.0 <= next <= remaining - RMin(MinStep, remaining)
    ensures next < remaining
    ensures next > TimeEps ==> (next * 1000000.0).Floor < (remaining * 1000000.0).Floor
  {
  }
}
