/**
 * The starting-grid editor of the race creation form: toggling a racer in
 * or out of the grid, moving a racer one slot up or down, and the checks
 * made before the form is sent.
 */
module GridEditor {
  import opened Common
  import opened RaceRecords

  predicate NoDuplicates(g: seq<Id>) {
    forall i, j :: 0 <= i < j < |g| ==> g[i] != g[j]
  }

  /** The filter's test `x => x !== id`. */
  function NotId(id: Id): Id -> bool {
    x => x != id
  }

  /**
   * `grid.filter(x => x !== id)`: every copy of `id` removed, every other
   * racer kept, in the same order (WithoutConcat).
   */
  function Without(g: seq<Id>, id: Id): (r: seq<Id>)
    ensures forall x :: x in r <==> x in g && x != id
    ensures multiset(r) == multiset(g)[id := 0]
    ensures |r| <= |g|
    ensures id !in g ==> r == g
    ensures NoDuplicates(g) ==> NoDuplicates(r)
  {
    FilterCounts(g, NotId(id));
    var r := Filter(g, NotId(id));
    assert multiset(r) == multiset(g)[id := 0];
    if NoDuplicates(g) then
      SubMultisetKeepsNoDuplicates(g, r);
      r
    else r
  }

  /** Removal works slot by slot: the racers kept from each part stay in their order. */
  lemma WithoutConcat(a: seq<Id>, b: seq<Id>, id: Id)
    ensures Without(a + b, id) == Without(a, id) + Without(b, id)
  {
    FilterConcat(a, b, NotId(id));
  }

  /** handleRacerSelection: a racer in the grid is taken out; one not in it is appended. */
  function SelectRacer(g: seq<Id>, id: Id): (r: seq<Id>)
    ensures id in r <==> id !in g
    ensures forall x :: x != id ==> (x in r <==> x in g)
    ensures id !in g ==> |r| == |g| + 1 && r[..|g|] == g && r[|g|] == id
    ensures id in g ==> r == Without(g, id) && |r| < |g|
  {
    if id in g then
      var r := Without(g, id);
      assert |r| < |g| by { WithoutShrinks(g, id); }
      r
    else
      assert (g + [id])[..|g|] == g;
      g + [id]
  }

  /** Removing a racer that is in the grid shortens it. */
  lemma WithoutShrinks(g: seq<Id>, id: Id)
    requires id in g
    ensures |Without(g, id)| < |g|
  {
    var i :| 0 <= i < |g| && g[i] == id;
    assert g == g[..i] + ([id] + g[i + 1..]);
    WithoutConcat(g[..i], [id] + g[i + 1..], id);
    WithoutConcat([id], g[i + 1..], id);
    assert Without([id], id) == [];
  }

  /** Selection keeps a duplicate-free grid duplicate-free. */
  lemma SelectKeepsNoDuplicates(g: seq<Id>, id: Id)
    requires NoDuplicates(g)
    ensures NoDuplicates(SelectRacer(g, id))
  {
    if id !in g {
      var r := SelectRacer(g, id);
      forall i, j | 0 <= i < j < |r| ensures r[i] != r[j] {
        if j == |g| { assert r[i] == g[i]; } else { assert r[i] == g[i] && r[j] == g[j]; }
      }
    }
  }

  /** Selecting a racer not in the grid and then selecting it again gives back the grid. */
  lemma SelectTwiceRestores(g: seq<Id>, id: Id)
    requires id !in g
    ensures SelectRacer(SelectRacer(g, id), id) == g
  {
    WithoutAppended(g, id);
  }

  lemma WithoutAppended(g: seq<Id>, id: Id)
    requires id !in g
    ensures Without(g + [id], id) == g
  {
    WithoutConcat(g, [id], id);
    assert Without([id], id) == [];
  }

  /** Both moves exchange two neighbouring slots. */
  function Swap(g: seq<Id>, i: nat, j: nat): (r: seq<Id>)
    requires i < |g| && j < |g|
    ensures |r| == |g| && r[i] == g[j] && r[j] == g[i]
    ensures forall k :: 0 <= k < |g| && k != i && k != j ==> r[k] == g[k]
    ensures multiset(r) == multiset(g)
  {
    g[i := g[j]][j := g[i]]
  }

  /** moveRacerUp(index): slot index trades places with the slot above it, if there is one. */
  function MoveUp(g: seq<Id>, index: nat): (r: seq<Id>)
    requires index < |g|
    ensures |r| == |g| && multiset(r) == multiset(g)
    ensures index == 0 ==> r == g
    ensures index > 0 ==>
              r[index - 1] == g[index] && r[index] == g[index - 1]
              && forall k :: 0 <= k < |g| && k != index - 1 && k != index ==> r[k] == g[k]
  {
    if index > 0 then Swap(g, index - 1, index) else g
  }

  /** moveRacerDown(index): slot index trades places with the slot below it, if there is one. */
  function MoveDown(g: seq<Id>, index: nat): (r: seq<Id>)
    requires index < |g|
    ensures |r| == |g| && multiset(r) == multiset(g)
    ensures index == |g| - 1 ==> r == g
    ensures index < |g| - 1 ==>
              r[index] == g[index + 1] && r[index + 1] == g[index]
              && forall k :: 0 <= k < |g| && k != index && k != index + 1 ==> r[k] == g[k]
  {
    if index < |g| - 1 then Swap(g, index, index + 1) else g
  }

  /** Moving a racer up and then down again from its new slot restores the grid. */
  lemma MoveUpThenDown(g: seq<Id>, index: nat)
    requires 0 < index < |g|
    ensures MoveDown(MoveUp(g, index), index - 1) == g
  {
  }

  /** Moving a racer down and then up again from its new slot restores the grid. */
  lemma MoveDownThenUp(g: seq<Id>, index: nat)
    requires index + 1 < |g|
    ensures MoveUp(MoveDown(g, index), index + 1) == g
  {
  }

  /**
   * A grid holding no racer more often than a duplicate-free grid does is
   * duplicate-free; permutations and removals are such grids.
   */
  lemma SubMultisetKeepsNoDuplicates(g: seq<Id>, r: seq<Id>)
    requires NoDuplicates(g) && multiset(r) <= multiset(g)
    ensures NoDuplicates(r)
  {
    forall i, j | 0 <= i < j < |r| ensures r[i] != r[j] {
      assert r == r[..i] + [r[i]] + r[i + 1..j] + [r[j]] + r[j + 1..];
      assert multiset{r[i], r[j]} <= multiset(r);
      CountAtMostOne(g, r[i]);
    }
  }

  lemma {:induction false} CountAtMostOne(g: seq<Id>, x: Id)
    requires NoDuplicates(g)
    ensures multiset(g)[x] <= 1
  {
    if |g| > 0 {
      assert g == [g[0]] + g[1..];
      assert NoDuplicates(g[1..]);
      CountAtMostOne(g[1..], x);
      if g[0] == x { assert x !in g[1..]; }
    }
  }

  // ---------------------------------------------------------------- editing sessions

  /** One click in the editor; the index of a move is the clicked slot. */
  datatype EditAction = Toggle(racer: Id) | Up(index: nat) | Down(index: nat)

  /** Applies one click; a move whose index names no slot leaves the grid alone (the form offers none). */
  function Edit(g: seq<Id>, a: EditAction): seq<Id> {
    match a
    case Toggle(id) => SelectRacer(g, id)
    case Up(i) => if i < |g| then MoveUp(g, i) else g
    case Down(i) => if i < |g| then MoveDown(g, i) else g
  }

  function EditAll(g: seq<Id>, actions: seq<EditAction>): seq<Id>
    decreases |actions|
  {
    if |actions| == 0 then g else EditAll(Edit(g, actions[0]), actions[1..])
  }

  /** Whatever the clicks, a grid edited from a duplicate-free one stays duplicate-free. */
  lemma {:induction false} EditingKeepsNoDuplicates(g: seq<Id>, actions: seq<EditAction>)
    requires NoDuplicates(g)
    ensures NoDuplicates(EditAll(g, actions))
    decreases |actions|
  {
    if |actions| > 0 {
      EditKeepsNoDuplicates(g, actions[0]);
      EditingKeepsNoDuplicates(Edit(g, actions[0]), actions[1..]);
    }
  }

  lemma EditKeepsNoDuplicates(g: seq<Id>, a: EditAction)
    requires NoDuplicates(g)
    ensures NoDuplicates(Edit(g, a))
  {
    match a
    case Toggle(id) => SelectKeepsNoDuplicates(g, id);
    case Up(i) => if i < |g| { SubMultisetKeepsNoDuplicates(g, Edit(g, a)); }
    case Down(i) => if i < |g| { SubMultisetKeepsNoDuplicates(g, Edit(g, a)); }
  }

  // ---------------------------------------------------------------- submit

  /** Why the form refuses to send. */
  datatype SubmitError = VenueRequired | LapsOutOfRange | TooFewRacers

  /** The body the form sends to createRace. */
  datatype RaceRequest = RaceRequest(venue: string, totalLaps: int, startingGrid: seq<Id>, defaultTyreType: string)

  datatype Submission = Blocked(reason: SubmitError) | Sent(request: RaceRequest)

  /**
   * handleSubmit: refuses a blank venue, a lap count that is empty or
   * outside [1, 200], or fewer than two racers; otherwise sends the trimmed
   * venue and the grid in its current order. `totalLaps` is None while the
   * field is empty.
   */
  function Submit(venue: string, totalLaps: Option<int>, grid: seq<Id>, tyre: Tyre): (r: Submission)
    ensures AllSpace(venue) ==> r == Blocked(VenueRequired)
    ensures !AllSpace(venue) && !(totalLaps.Some? && 1 <= totalLaps.value <= 200) ==> r == Blocked(LapsOutOfRange)
    ensures !AllSpace(venue) && totalLaps.Some? && 1 <= totalLaps.value <= 200 && |grid| < 2 ==> r == Blocked(TooFewRacers)
    ensures r.Sent? <==> !AllSpace(venue) && totalLaps.Some? && 1 <= totalLaps.value <= 200 && |grid| >= 2
    ensures r.Sent? ==> r.request.venue == Trim(venue) && r.request.venue != ""
                        && r.request.totalLaps == totalLaps.value
                        && r.request.startingGrid == grid
                        && r.request.defaultTyreType == TyreName(tyre)
  {
    TrimEmptyIffBlank(venue);
    if Trim(venue) == "" then Blocked(VenueRequired)
    else if totalLaps.None? || totalLaps.value < 1 || totalLaps.value > 200 then Blocked(LapsOutOfRange)
    else if |grid| < 2 then Blocked(TooFewRacers)
    else Sent(RaceRequest(Trim(venue), totalLaps.value, grid, TyreName(tyre)))
  }
}
