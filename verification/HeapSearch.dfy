/** The first-fit walk of the allocator, which merges neighbouring clear blocks as it goes. */
module HeapSearch {
  import opened PowersOfTwo
  import opened HeapChain

  /** A run of clear blocks: where it starts, its last block, and its total size up to the end of that block. */
  datatype Fit = NoFit | Fit(start: nat, last: nat, total: nat)

  /** The walk from cur, with total bytes of clear blocks directly before it. */
  function Find(m: Memory, cur: nat, total: nat, size: nat): Fit
    requires Tiled(m, cur) && total <= cur && size <= MAX_SINGLE_MALLOC
    decreases LIMIT - cur
  {
    if m[cur] == IN_USE then Find(m, Next(m, cur), 0, size)
    else if cur + size >= LIMIT then NoFit
    else if total + Pow2(m[cur + 1]) >= size then Fit(cur - total, cur, total + Pow2(m[cur + 1]))
    else
      Powers(); Find(m, Next(m, cur), total + Pow2(m[cur + 1]), size)
  }

  /** The block before the header s, if there is one, is in use. */
  ghost predicate AfterUse(m: Memory, s: nat) {
    s == BASE || exists p: nat :: Path(m, BASE, p) && Inner(m, p) && m[p] == IN_USE && Next(m, p) == s
  }

  /** Clear blocks lead from s to c, and the run of clear blocks cannot be extended to the left of s. */
  ghost predicate MaximalRun(m: Memory, s: nat, c: nat) {
    Path(m, BASE, s) && ClearPath(m, s, c) && AfterUse(m, s)
  }

  /** The clear block c, together with the clear run that starts at s and ends with c, can serve size bytes. */
  ghost predicate Serves(m: Memory, s: nat, c: nat, size: nat) {
    && MaximalRun(m, s, c)
    && c < LIMIT && m[c] == CLEAR
    && Next(m, c) - s >= size
    && c + size < LIMIT
  }

  /** c is the first clear block that can serve the request, together with the run from s on. */
  ghost predicate FirstServes(m: Memory, s: nat, c: nat, size: nat) {
    && Serves(m, s, c, size)
    && forall t: nat, d: nat | Serves(m, t, d, size) :: c <= d
  }

  /** Between a header and the next one there is no third. */
  lemma NoHeaderBetween(m: Memory, cur: nat, r: nat)
    requires Path(m, BASE, cur) && Path(m, BASE, r) && Inner(m, cur)
    ensures r <= cur || Next(m, cur) <= r
  {
    if cur < r {
      PathBetween(m, BASE, cur, r);
      PathGrows(m, Next(m, cur), r);
    }
  }

  lemma StepForward(m: Memory, cur: nat)
    requires Tiled(m, cur) && Path(m, BASE, cur) && m[cur + 1] != TAIL_SHIFT
    ensures Inner(m, cur) && Tiled(m, Next(m, cur)) && Path(m, BASE, Next(m, cur))
  {
    PathThen(m, BASE, cur, Next(m, cur));
  }

  lemma RunStartsAfterUse(m: Memory, cur: nat)
    requires Tiled(m, cur) && Path(m, BASE, cur) && m[cur] == IN_USE
    ensures MaximalRun(m, Next(m, cur), Next(m, cur))
  {
    StepForward(m, cur);
  }

  lemma RunGrows(m: Memory, s: nat, cur: nat)
    requires Tiled(m, cur) && MaximalRun(m, s, cur)
    requires m[cur] == CLEAR && m[cur + 1] != TAIL_SHIFT
    ensures MaximalRun(m, s, Next(m, cur))
  {
    ClearAppend(m, s, cur);
  }

  /** No clear run reaches across the start of a maximal one. */
  lemma NoClearPathAcross(m: Memory, r: nat, s: nat, c: nat)
    requires Path(m, BASE, r) && ClearPath(m, r, c) && r <= s <= c && Path(m, BASE, s) && AfterUse(m, s)
    ensures r == s
  {
    PathGrows(m, BASE, r);
    if r == s {
      return;
    }
    var p: nat :| Path(m, BASE, p) && Inner(m, p) && m[p] == IN_USE && Next(m, p) == s;
    NoHeaderBetween(m, p, r);
    PathBetween(m, BASE, r, p);
    ClearAt(m, r, p, c);
  }

  lemma MaximalRunUnique(m: Memory, s: nat, t: nat, c: nat)
    requires MaximalRun(m, s, c) && MaximalRun(m, t, c)
    ensures s == t
  {
    ClearIsPath(m, s, c);
    ClearIsPath(m, t, c);
    PathGrows(m, s, c);
    PathGrows(m, t, c);
    if s < t {
      NoClearPathAcross(m, s, t, c);
    } else if t < s {
      NoClearPathAcross(m, t, s, c);
    }
  }

  /** If f is a fit, it is one that serves the request, at or after cur. */
  ghost predicate Sound(m: Memory, cur: nat, f: Fit, size: nat) {
    f.Fit? ==>
      && Serves(m, f.start, f.last, size)
      && cur <= f.last && Tiled(m, f.last)
      && f.total == Next(m, f.last) - f.start
      && f.last - f.start < size
  }

  /** No block from cur on serves the request earlier than f does. */
  ghost predicate First(m: Memory, cur: nat, f: Fit, size: nat) {
    forall t: nat, c: nat | cur <= c && Serves(m, t, c, size) :: f.Fit? && f.last <= c
  }

  lemma FirstFromNext(m: Memory, cur: nat, f: Fit, size: nat)
    requires Inner(m, cur) && Path(m, BASE, cur)
    requires First(m, Next(m, cur), f, size)
    requires forall t: nat :: !Serves(m, t, cur, size)
    ensures First(m, cur, f, size)
  {
    forall t: nat, c: nat | cur <= c && Serves(m, t, c, size)
      ensures f.Fit? && f.last <= c
    {
      ClearIsPath(m, t, c);
      PathThen(m, BASE, t, c);
      NoHeaderBetween(m, cur, c);
    }
  }

  ghost predicate Answers(m: Memory, cur: nat, f: Fit, size: nat) {
    Sound(m, cur, f, size) && First(m, cur, f, size)
  }

  lemma AnswersPastUse(m: Memory, cur: nat, f: Fit, size: nat)
    requires Tiled(m, cur) && Path(m, BASE, cur) && m[cur] == IN_USE
    requires Answers(m, Next(m, cur), f, size)
    ensures Answers(m, cur, f, size)
  {
    FirstFromNext(m, cur, f, size);
  }

  lemma AnswersPastShortRun(m: Memory, s: nat, cur: nat, f: Fit, size: nat)
    requires Tiled(m, cur) && Path(m, BASE, cur) && MaximalRun(m, s, cur)
    requires m[cur + 1] != TAIL_SHIFT && Next(m, cur) - s < size
    requires Answers(m, Next(m, cur), f, size)
    ensures Answers(m, cur, f, size)
  {
    forall t: nat
      ensures !Serves(m, t, cur, size)
    {
      if Serves(m, t, cur, size) {
        MaximalRunUnique(m, s, t, cur);
      }
    }
    FirstFromNext(m, cur, f, size);
  }

  /** The block at cur ends the search: it is too close to LIMIT, or it completes a run of the right size. */
  lemma AnswersHere(m: Memory, s: nat, cur: nat, size: nat)
    requires Tiled(m, cur) && MaximalRun(m, s, cur) && s <= cur && cur - s < size && m[cur] == CLEAR
    requires cur + size >= LIMIT || Next(m, cur) - s >= size
    ensures Answers(m, cur, if cur + size >= LIMIT then NoFit else Fit(s, cur, Next(m, cur) - s), size)
  {
  }

  /** The search answers with the first block that can serve the request, and fails only if none can. */
  lemma {:induction false} FindFirst(m: Memory, s: nat, cur: nat, size: nat)
    requires Tiled(m, cur) && Path(m, BASE, cur) && MaximalRun(m, s, cur)
    requires s <= cur && cur - s < size <= MAX_SINGLE_MALLOC
    ensures Answers(m, cur, Find(m, cur, cur - s, size), size)
    decreases LIMIT - cur
  {
    if m[cur] == IN_USE {
      RunStartsAfterUse(m, cur);
      StepForward(m, cur);
      FindFirst(m, Next(m, cur), Next(m, cur), size);
      AnswersPastUse(m, cur, Find(m, Next(m, cur), 0, size), size);
    } else if cur + size < LIMIT && Next(m, cur) - s < size {
      assert m[cur + 1] != TAIL_SHIFT by {
        Powers();
      }
      StepForward(m, cur);
      RunGrows(m, s, cur);
      FindFirst(m, s, Next(m, cur), size);
      AnswersPastShortRun(m, s, cur, Find(m, Next(m, cur), Next(m, cur) - s, size), size);
    } else {
      AnswersHere(m, s, cur, size);
    }
  }

  /** First fit over the whole heap: the characterisation that needs no walk. */
  lemma SearchIsFirstFit(m: Memory, size: nat)
    requires Tiled(m, BASE) && 0 < size <= MAX_SINGLE_MALLOC
    ensures var f := Find(m, BASE, 0, size);
            && (f.Fit? <==> exists s: nat, c: nat :: Serves(m, s, c, size))
            && (f.Fit? ==> Serves(m, f.start, f.last, size))
            && forall s: nat, c: nat | Serves(m, s, c, size) :: f.last <= c
  {
    var f := Find(m, BASE, 0, size);
    FindFirst(m, BASE, BASE, size);
    forall s: nat, c: nat | Serves(m, s, c, size)
      ensures f.Fit? && f.last <= c
    {
      ClearIsPath(m, s, c);
      PathThen(m, BASE, s, c);
      PathGrows(m, BASE, c);
    }
  }

  // ----- Searching an eagerly merged free list instead -----

  /** Total size of the clear blocks from s up to the next block in use, or the end of the tail. */
  function FreeTotal(m: Memory, s: nat): (t: nat)
    requires Tiled(m, s)
    decreases LIMIT - s
  {
    if m[s] == IN_USE then 0
    else if m[s + 1] == TAIL_SHIFT then Pow2(TAIL_SHIFT)
    else Pow2(m[s + 1]) + FreeTotal(m, Next(m, s))
  }

  /** The whole free run that starts at s, taken as one merged block, has room for size bytes. */
  ghost predicate MergedServes(m: Memory, s: nat, size: nat) {
    && MaximalRun(m, s, s) && Tiled(m, s)
    && FreeTotal(m, s) >= size
    && s + size < LIMIT
  }

  lemma {:induction false} FreeTotalExtends(m: Memory, s: nat, c: nat)
    requires ClearPath(m, s, c) && Tiled(m, c)
    ensures Tiled(m, s) && FreeTotal(m, s) == c - s + FreeTotal(m, c)
    decreases c - s
  {
    if s < c {
      FreeTotalExtends(m, Next(m, s), c);
    }
  }

  /** The clear block at which the total of the run that starts at s first reaches size, from cur on. */
  function Reaching(m: Memory, s: nat, cur: nat, size: nat): (c: nat)
    requires Tiled(m, cur) && s <= cur && cur - s < size <= MAX_SINGLE_MALLOC
    requires cur - s + FreeTotal(m, cur) >= size
    ensures cur <= c < LIMIT && c - s < size && Next(m, c) - s >= size && m[c] == CLEAR
    decreases LIMIT - cur
  {
    Powers();
    if Next(m, cur) - s >= size then cur else Reaching(m, s, Next(m, cur), size)
  }

  lemma {:induction false} ReachingRun(m: Memory, s: nat, cur: nat, size: nat)
    requires Tiled(m, cur) && MaximalRun(m, s, cur) && s <= cur && cur - s < size <= MAX_SINGLE_MALLOC
    requires cur - s + FreeTotal(m, cur) >= size
    ensures MaximalRun(m, s, Reaching(m, s, cur, size))
    decreases LIMIT - cur
  {
    if Next(m, cur) - s < size {
      Powers();
      ClearIsPath(m, s, cur);
      PathThen(m, BASE, s, cur);
      RunGrows(m, s, cur);
      ReachingRun(m, s, Next(m, cur), size);
    }
  }

  /** No earlier block has the total. */
  lemma {:induction false} ReachingIsFirst(m: Memory, s: nat, cur: nat, c: nat, size: nat)
    requires Tiled(m, cur) && s <= cur && cur - s < size <= MAX_SINGLE_MALLOC && cur - s + FreeTotal(m, cur) >= size
    requires ClearPath(m, cur, c) && c < LIMIT && Next(m, c) - s >= size
    ensures Reaching(m, s, cur, size) <= c
    decreases LIMIT - cur
  {
    ClearIsPath(m, cur, c);
    PathGrows(m, cur, c);
    if Next(m, cur) - s < size {
      Powers();
      ReachingIsFirst(m, s, Next(m, cur), c, size);
    }
  }

  /** The merged run at s has room, but the block at which its total reaches size ends the walk. */
  ghost predicate Missed(m: Memory, s: nat, size: nat)
    requires 0 < size <= MAX_SINGLE_MALLOC
  {
    MergedServes(m, s, size) && Reaching(m, s, s, size) + size >= LIMIT
  }

  /** A run serves the request with one of its blocks exactly if, as a merged block, it has room and is not missed. */
  lemma ServesIff(m: Memory, s: nat, size: nat)
    requires Tiled(m, BASE) && 0 < size <= MAX_SINGLE_MALLOC
    ensures (exists c: nat :: Serves(m, s, c, size)) <==> MergedServes(m, s, size) && !Missed(m, s, size)
  {
    if c: nat :| Serves(m, s, c, size) {
      ServesMerged(m, s, c, size);
    }
    if MergedServes(m, s, size) && !Missed(m, s, size) {
      ReachingRun(m, s, s, size);
      assert Serves(m, s, Reaching(m, s, s, size), size);
    }
  }

  lemma ServesMerged(m: Memory, s: nat, c: nat, size: nat)
    requires Tiled(m, BASE) && 0 < size <= MAX_SINGLE_MALLOC && Serves(m, s, c, size)
    ensures MergedServes(m, s, size) && !Missed(m, s, size)
  {
    ClearIsPath(m, s, c);
    PathThen(m, BASE, s, c);
    SplitChain(m, BASE, c);
    PathGrows(m, s, c);
    FreeTotalExtends(m, s, c);
    FreeTotalHere(m, c);
    ReachingIsFirst(m, s, s, c, size);
  }

  lemma FreeTotalHere(m: Memory, c: nat)
    requires Tiled(m, c) && m[c] == CLEAR
    ensures FreeTotal(m, c) >= Next(m, c) - c
  {
  }

  /** Lazy merging finds what a first-fit search of the eagerly merged free list finds, except for exactly
      the missed runs. These all lie within twice the requested size of LIMIT. */
  lemma LazyAgreesWithEager(m: Memory, size: nat)
    requires Tiled(m, BASE) && 0 < size <= MAX_SINGLE_MALLOC
    ensures var f := Find(m, BASE, 0, size);
            && (f.Fit? <==> exists s: nat :: MergedServes(m, s, size) && !Missed(m, s, size))
            && (f.Fit? ==> MergedServes(m, f.start, size) && !Missed(m, f.start, size))
            && (forall s: nat | MergedServes(m, s, size) && !Missed(m, s, size) :: f.start <= s)
            && (forall s: nat | Missed(m, s, size) :: s + 2 * size > LIMIT)
  {
    var f := Find(m, BASE, 0, size);
    SearchIsFirstFit(m, size);
    if f.Fit? {
      ServesMerged(m, f.start, f.last, size);
    }
    forall s: nat | MergedServes(m, s, size) && !Missed(m, s, size)
      ensures f.Fit? && f.start <= s
    {
      ServesIff(m, s, size);
      var c: nat :| Serves(m, s, c, size);
      FirstIsLeftmost(m, f, s, c, size);
    }
  }

  lemma FirstIsLeftmost(m: Memory, f: Fit, s: nat, c: nat, size: nat)
    requires f.Fit? && Serves(m, f.start, f.last, size) && Serves(m, s, c, size) && f.last <= c
    ensures f.start <= s
  {
    ClearIsPath(m, s, c);
    PathGrows(m, s, c);
    ClearIsPath(m, f.start, f.last);
    PathGrows(m, f.start, f.last);
    if s < f.start {
      EarlierRunEndsBefore(m, s, c, f.start, f.last);
    }
  }

  /** Maximal runs do not interleave. */
  lemma EarlierRunEndsBefore(m: Memory, s: nat, c: nat, t: nat, d: nat)
    requires MaximalRun(m, s, c) && MaximalRun(m, t, d) && s < t <= d
    ensures c < d
  {
    ClearIsPath(m, t, d);
    if d <= c {
      NoClearPathAcross(m, s, t, c);
    }
  }
}
