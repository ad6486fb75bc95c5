/** The modified clock of `dame_nro_frame_reemplazado`, over the page tables of all segments. */
module Clock {
  /** `fr` is a frame number while the page is present and a swap slot number otherwise. */
  datatype Page = Page(used: bool, modified: bool, present: bool, fr: nat)

  type Tables = seq<seq<Page>>

  datatype Option<T> = None | Some(value: T)

  predicate Spot(t: Tables, s: nat, p: nat)
  {
    s < |t| && p < |t[s]|
  }

  /** Segment by segment, page by page. */
  predicate Before(s: nat, p: nat, i: nat, j: nat)
  {
    s < i || (s == i && p < j)
  }

  ghost predicate SomePresent(t: Tables)
  {
    exists s: nat, p: nat :: Spot(t, s, p) && t[s][p].present
  }

  /** Pass one looks for (U, M) = (0, 0), pass two for (0, 1). */
  predicate Wanted(x: Page, dirty: bool)
  {
    x.present && !x.used && x.modified == dirty
  }

  /** One pass from (s, p) to the end of the last segment. */
  function Find(t: Tables, dirty: bool, s: nat, p: nat): (v: Option<(nat, nat)>)
    ensures v.Some? ==> Spot(t, v.value.0, v.value.1) && Wanted(t[v.value.0][v.value.1], dirty)
    ensures v.Some? ==> !Before(v.value.0, v.value.1, s, p)
    decreases if s < |t| then |t| - s else 0, if s < |t| && p < |t[s]| then |t[s]| - p else 0
  {
    if s >= |t| then None
    else if p >= |t[s]| then Find(t, dirty, s + 1, 0)
    else if Wanted(t[s][p], dirty) then Some((s, p))
    else Find(t, dirty, s, p + 1)
  }

  /** Every wanted page from (s, p) on comes at or after the one found. */
  lemma {:induction false} FindFirst(t: Tables, dirty: bool, s: nat, p: nat, i: nat, j: nat)
    requires Spot(t, i, j) && Wanted(t[i][j], dirty) && !Before(i, j, s, p)
    ensures var v := Find(t, dirty, s, p); v.Some? && !Before(i, j, v.value.0, v.value.1)
    decreases if s < |t| then |t| - s else 0, if s < |t| && p < |t[s]| then |t[s]| - p else 0
  {
    if p >= |t[s]| {
      FindFirst(t, dirty, s + 1, 0, i, j);
    } else if !Wanted(t[s][p], dirty) {
      FindFirst(t, dirty, s, p + 1, i, j);
    }
  }

  /** The use bits of the present pages before (s, p) put to 0. */
  function ClearTo(t: Tables, s: nat, p: nat): (r: Tables)
    ensures |r| == |t|
    ensures forall i: nat | i < |t| :: |r[i]| == |t[i]|
    ensures forall i: nat, j: nat | Spot(t, i, j) ::
              r[i][j] == if Before(i, j, s, p) && t[i][j].present then t[i][j].(used := false) else t[i][j]
  {
    seq(|t|, i requires 0 <= i < |t| =>
      seq(|t[i]|, j requires 0 <= j < |t[i]| =>
        if Before(i, j, s, p) && t[i][j].present then t[i][j].(used := false) else t[i][j]))
  }

  function Cleared(t: Tables): (r: Tables)
    ensures |r| == |t| && forall i: nat | i < |t| :: |r[i]| == |t[i]|
    ensures forall i: nat, j: nat | Spot(t, i, j) ::
              r[i][j] == if t[i][j].present then t[i][j].(used := false) else t[i][j]
  {
    ClearTo(t, |t|, 0)
  }

  /** The page chosen, the tables with the use bits as the search left them, and the passes made. */
  datatype Choice = Choice(tables: Tables, seg: nat, page: nat, passes: nat)

  /** The whole search, starting behind the hand at (hs, hp). */
  function Victim(t: Tables, hs: nat, hp: nat): (c: Choice)
    requires SomePresent(t)
    ensures |c.tables| == |t| && forall i: nat | i < |t| :: |c.tables[i]| == |t[i]|
    ensures Spot(t, c.seg, c.page) && t[c.seg][c.page].present
    ensures 1 <= c.passes <= 4
  {
    var v1 := Find(t, false, hs, hp + 1);
    if v1.Some? then Choice(t, v1.value.0, v1.value.1, 1)
    else
      var v2 := Find(t, true, 0, 0);
      if v2.Some? then Choice(ClearTo(t, v2.value.0, v2.value.1), v2.value.0, v2.value.1, 2)
      else
        var u := Cleared(t);
        var v3 := Find(u, false, 0, 0);
        if v3.Some? then Choice(u, v3.value.0, v3.value.1, 3)
        else
          AllDirty(t);
          var v4 := Find(u, true, 0, 0);
          Choice(u, v4.value.0, v4.value.1, 4)
  }

  /** Once every use bit is 0, a present page is found in at most two more passes. */
  lemma AllDirty(t: Tables)
    requires SomePresent(t) && Find(Cleared(t), false, 0, 0).None?
    ensures Find(Cleared(t), true, 0, 0).Some?
  {
    var s: nat, p: nat :| Spot(t, s, p) && t[s][p].present;
    var u := Cleared(t);
    assert Spot(u, s, p) && !u[s][p].used && u[s][p].present;
    if u[s][p].modified {
      FindFirst(u, true, 0, 0, s, p);
    } else {
      FindFirst(u, false, 0, 0, s, p);
    }
  }

  /** (s, p) is the first page in global order that is present and, if `clean`, unmodified. */
  ghost predicate FirstPresent(t: Tables, clean: bool, s: nat, p: nat)
  {
    && Spot(t, s, p) && t[s][p].present && (clean ==> !t[s][p].modified)
    && forall i: nat, j: nat | Spot(t, i, j) && Before(i, j, s, p) ::
         !(t[i][j].present && (clean ==> !t[i][j].modified))
  }

  /**
   Who is chosen, said of the tables before the search: behind the hand the first (0, 0) page;
   failing that the first (0, 1) page anywhere; failing that the first unmodified present page,
   or the first present page when all are modified.
   */
  lemma VictimMeaning(t: Tables, hs: nat, hp: nat, c: Choice)
    requires SomePresent(t) && c == Victim(t, hs, hp)
    ensures Spot(t, c.seg, c.page)
    ensures c.passes == 1 ==> Wanted(t[c.seg][c.page], false) && c.tables == t
    ensures c.passes == 1 ==>
              forall i: nat, j: nat | Spot(t, i, j) && !Before(i, j, hs, hp + 1) && Before(i, j, c.seg, c.page) ::
                !Wanted(t[i][j], false)
    ensures c.passes > 1 ==>
              forall i: nat, j: nat | Spot(t, i, j) && !Before(i, j, hs, hp + 1) :: !Wanted(t[i][j], false)
    ensures c.passes == 2 ==> Wanted(t[c.seg][c.page], true)
    ensures c.passes == 2 ==>
              forall i: nat, j: nat | Spot(t, i, j) && Before(i, j, c.seg, c.page) :: !Wanted(t[i][j], true)
    ensures c.passes > 2 ==> c.tables == Cleared(t)
    ensures c.passes > 2 ==>
              FirstPresent(t, exists i: nat, j: nat :: Spot(t, i, j) && t[i][j].present && !t[i][j].modified,
                           c.seg, c.page)
  {
    forall i: nat, j: nat | Spot(t, i, j) && Wanted(t[i][j], false) && !Before(i, j, hs, hp + 1)
      ensures c.passes == 1 && !Before(i, j, c.seg, c.page)
    {
      FindFirst(t, false, hs, hp + 1, i, j);
    }
    if c.passes == 2 {
      forall i: nat, j: nat | Spot(t, i, j) && Wanted(t[i][j], true)
        ensures !Before(i, j, c.seg, c.page)
      {
        FindFirst(t, true, 0, 0, i, j);
      }
    }
    if c.passes > 2 {
      if c.passes == 4 {
        AllDirty(t);
      }
      LateVictim(t, c.seg, c.page, c.passes == 3);
    }
  }

  lemma LateVictim(t: Tables, s: nat, p: nat, third: bool)
    requires SomePresent(t)
    requires if third then Find(Cleared(t), false, 0, 0) == Some((s, p))
             else Find(Cleared(t), false, 0, 0).None? && Find(Cleared(t), true, 0, 0) == Some((s, p))
    ensures third <==> exists i: nat, j: nat :: Spot(t, i, j) && t[i][j].present && !t[i][j].modified
    ensures FirstPresent(t, third, s, p)
  {
    var u := Cleared(t);
    assert Spot(u, s, p) && Spot(t, s, p);
    forall i: nat, j: nat | Spot(t, i, j) && t[i][j].present
      ensures Spot(u, i, j) && (!t[i][j].modified ==> third)
      ensures (third ==> !t[i][j].modified) ==> !Before(i, j, s, p)
    {
      assert Spot(u, i, j) && Wanted(u[i][j], t[i][j].modified);
      FindFirst(u, t[i][j].modified, 0, 0, i, j);
    }
  }
}
