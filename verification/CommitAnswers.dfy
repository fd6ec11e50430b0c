/**
  What a commit answers, and when (core/season.js, commit): every refusal exactly when its own reason holds and
  no earlier one does, and a registration exactly when none does. `Season` says what an answer leaves true;
  this says which answer it is.
 */
module CommitAnswers {
  import opened RegistrationAnswers
  import opened RegistrationLog
  import opened RootStore
  import opened Season
  import opened Wrappers

  /** Every read the commit makes of its records answers. */
  predicate Reads<T>(s: State<T>, context: string, m: Meets) {
    m.reconcile.Answers? && (context in s.cache.contexts || m.materialize.Answers?)
  }

  /** The store as the commit's last read finds it. */
  function Found<T>(s: State<T>, context: string, m: Meets): Store
    requires Reads(s, context, m)
  {
    if context in s.cache.contexts then Settle(s.store, m.reconcile.landed) else Settle(s.store, m.materialize.landed)
  }

  /** None of the reasons to refuse a registration before it is written. */
  predicate MayWrite<T>(cfg: Season.Config<T>, members: nat, d: Request, m: Meets) {
    && members < cfg.capacity && (m.season.None? || m.season == Some(d.season)) && !m.regressed
    && m.write != Stale && Admissible(d)
  }

  lemma PreparedStore<T(!new)>(cfg: Season.Config<T>, s: State<T>, context: string, d: Request, m: Meets)
    requires Inv(cfg, s) && StoreCoherent(s.store) && s.cache.current == Some(d.season)
    requires Reads(s, context, m)
    ensures var o := Prepare(cfg, s, d.season, context, m);
      && o.Done? && o.state.store == Found(s, context, m) && o.state.store.uncertain.None? && Inv(cfg, o.state)
      && Coherent(o.state.store.index) && Level(o.state, d.season, context)
      && o.state.cache.current == s.cache.current
  {
    hide Inv, Members, Build, Grew, Level, Coherent, Appendable;
    PrepareKeeps(cfg, s, d.season, context, m);
    if context in s.cache.contexts {
      ReconcileKeeps(cfg, s, d.season, context, m.reconcile, m.ts);
      SettleCoherent(s.store, m.reconcile.landed);
    } else {
      SettleKeeps(cfg, s, m.materialize.landed);
      var s' := s.(store := Settle(s.store, m.materialize.landed));
      MaterializeKeeps(cfg, s', context, m.ts);
      ReconcileKeeps(cfg, Materialize(cfg, s', context, Members(s'.store.index, d.season, context), m.ts).state,
                     d.season, context, m.reconcile, m.ts);
      SettleCoherent(s.store, m.materialize.landed);
    }
  }

  /** The refusals before the write, of a tree level with its bucket. */
  lemma RefusesExactlyWhen<T(!new)>(cfg: Season.Config<T>, s: State<T>, context: string, d: Request,
    byNullifier: bool, m: Meets)
    requires Inv(cfg, s) && Coherent(s.store.index) && Level(s, d.season, context) && d.contextHash == context
    ensures var refusal := Refusal(cfg, s, d.season, context, d, byNullifier, m);
      var n, asked := |Peers(s.store.index, d)|, byNullifier && Spent(s.store.index, d);
      var ended := m.season.Some? && m.season.value != d.season;
      && n <= cfg.capacity
      && (refusal == Some(AlreadyRegistered) <==> asked)
      && (refusal == Some(TreeFull) <==> !asked && n == cfg.capacity)
      && (refusal == Some(SeasonRolled) <==> !asked && n < cfg.capacity && ended)
      && (refusal == Some(ClockRegressed) <==> !asked && n < cfg.capacity && !ended && m.regressed)
      && (refusal.None? <==> !asked && n < cfg.capacity && !ended && !m.regressed)
  {
    hide Inv, Coherent, Spent, Peers, Level, SizeOf;
    SpentIsSeen(s.store.index, d);
    SizeIsBucket(cfg, s, d);
  }

  lemma SizeIsBucket<T(!new)>(cfg: Season.Config<T>, s: State<T>, d: Request)
    requires Inv(cfg, s) && Level(s, d.season, d.contextHash)
    ensures SizeOf(s, d.contextHash) == |Peers(s.store.index, d)| <= cfg.capacity
  {
    assert |RecordsOf(s.store.index, Bucket(d.season, d.contextHash))| <= cfg.capacity;
  }

  /** A record that is the request, at the next place, is mirrored there. */
  lemma Mirrored<T>(cfg: Season.Config<T>, s: State<T>, context: string, d: Request, r: Record, ts: int)
    requires Level(s, d.season, context) && d.contextHash == context && IsRequest(r, d, |Peers(s.store.index, d)|)
    ensures context in s.cache.contexts
    ensures var o, before := Mirror(cfg, s, context, r, ts), Peers(s.store.index, d);
      && o.Done? && o.state.store == Store(Remember(s.store.index, r), None)
      && o.answer == Committed(|before|, cfg.rootOf(Commitments(before) + [d.commitment]), |before| + 1)
  {
  }

  /** The answers of the write itself. */
  lemma WritesExactlyWhen<T(!new)>(cfg: Season.Config<T>, s: State<T>, context: string, d: Request, m: Meets)
    requires Coherent(s.store.index) && Level(s, d.season, context) && d.contextHash == context
    requires m.write in {Stale, Answered}
    ensures var o, ix := WriteAndMirror(cfg, s, context, d, m), s.store.index;
      var tried, declared := m.write == Answered && Admissible(d), Declared(ix, d);
      && o.Done?
      && (o.answer == StaleRoot <==> m.write == Stale)
      && (o.answer == InvalidStatement <==> m.write == Answered && !Admissible(d))
      && (o.answer == AlreadyRegistered <==> tried && Spent(ix, d))
      && (o.answer == StatementMismatch <==>
            tried && !Spent(ix, d) && declared.Some? && declared.value != Declaration(d.engine, d.statement))
      && (o.answer.Committed? <==>
            tried && !Spent(ix, d) && (declared.None? || declared.value == Declaration(d.engine, d.statement)))
  {
    hide Coherent, Spent, Admissible, Level, Mirror, Remember, Members, Declared, Peers, Commitments;
    DecidesAsPromised(s.store.index, d);
    if Decide(s.store.index, d).Write? { Mirrored(cfg, s, context, d, Decide(s.store.index, d).record, m.ts); }
  }

  /** And what it leaves in the store. */
  lemma WriteLeaves<T(!new)>(cfg: Season.Config<T>, s: State<T>, context: string, d: Request, m: Meets)
    requires Coherent(s.store.index) && Level(s, d.season, context) && d.contextHash == context
    requires m.write in {Stale, Answered}
    ensures var o, ix := WriteAndMirror(cfg, s, context, d, m), s.store.index;
      var before := Peers(ix, d);
      && o.Done?
      && (!o.answer.Committed? ==> o.state.store == s.store)
      && (o.answer.Committed? ==>
            && Decide(ix, d).Write? && o.state.store == Store(Remember(ix, Decide(ix, d).record), None)
            && o.answer == Committed(|before|, cfg.rootOf(Commitments(before) + [d.commitment]), |before| + 1))
  {
    hide Coherent, Spent, Admissible, Level, Mirror, Remember, Members, Declared, Peers, Commitments;
    DecidesAsPromised(s.store.index, d);
    if Decide(s.store.index, d).Write? { Mirrored(cfg, s, context, d, Decide(s.store.index, d).record, m.ts); }
  }

  /** Which answer a commit gives when its awaits answer: a nullifier already spent, a full tree, an ended season,
      a regressed clock, a root too old, a malformed request and another declaration each refuse in that order, a
      spent nullifier again at the write if it was not asked for first; a request none of them refuses is
      registered. */
  lemma AnswersExactlyWhen<T(!new)>(cfg: Season.Config<T>, s: State<T>, context: string, d: Request,
    byNullifier: bool, m: Meets)
    requires Inv(cfg, s) && StoreCoherent(s.store) && s.cache.current == Some(d.season) && d.contextHash == context
    requires Reads(s, context, m) && (byNullifier ==> m.has.Answers?) && m.write in {Stale, Answered}
    ensures var o, ix := Commit(cfg, s, context, d, byNullifier, m), Found(s, context, m).index;
      var n := |Peers(ix, d)|;
      var asked := byNullifier && Spent(ix, d);
      var ended := m.season.Some? && m.season.value != d.season;
      var declared := Declared(ix, d);
      && o.Done? && n <= cfg.capacity
      && (o.answer == AlreadyRegistered <==> asked || (Spent(ix, d) && MayWrite(cfg, n, d, m)))
      && (o.answer == TreeFull <==> !asked && n == cfg.capacity)
      && (o.answer == SeasonRolled <==> !asked && n < cfg.capacity && ended)
      && (o.answer == ClockRegressed <==> !asked && n < cfg.capacity && !ended && m.regressed)
      && (o.answer == StaleRoot <==> !asked && n < cfg.capacity && !ended && !m.regressed && m.write == Stale)
      && (o.answer == InvalidStatement <==>
            !asked && n < cfg.capacity && !ended && !m.regressed && m.write == Answered && !Admissible(d))
      && (o.answer == StatementMismatch <==>
            !Spent(ix, d) && MayWrite(cfg, n, d, m)
            && declared.Some? && declared.value != Declaration(d.engine, d.statement))
      && (o.answer.Committed? <==>
            !Spent(ix, d) && MayWrite(cfg, n, d, m)
            && (declared.None? || declared.value == Declaration(d.engine, d.statement)))
  {
    hide Inv, Coherent, StoreCoherent, Spent, Peers, Declared, Prepare, WriteAndMirror, Refusal, Admissible, Found,
      RecordsOf, Members, Remember, Decide;
    PreparedStore(cfg, s, context, d, m);
    var ready := Prepare(cfg, s, d.season, context, m).state;
    RefusesExactlyWhen(cfg, ready, context, d, byNullifier, m);
    WritesExactlyWhen(cfg, ready, context, d, m);
  }

  /** And what a registration is: the request itself, the last of its bucket, with the root of the bucket and it;
      any other answer leaves the store as it was found. */
  lemma RegistersTheRequest<T(!new)>(cfg: Season.Config<T>, s: State<T>, context: string, d: Request,
    byNullifier: bool, m: Meets)
    requires Inv(cfg, s) && StoreCoherent(s.store) && s.cache.current == Some(d.season) && d.contextHash == context
    requires Reads(s, context, m) && (byNullifier ==> m.has.Answers?) && m.write in {Stale, Answered}
    ensures var o, st := Commit(cfg, s, context, d, byNullifier, m), Found(s, context, m);
      var before, after := Peers(st.index, d), Peers(o.state.store.index, d);
      && o.Done? && o.state.store.uncertain.None?
      && (!o.answer.Committed? ==> o.state.store == st)
      && (o.answer.Committed? ==>
            && |after| == |before| + 1 && after[..|before|] == before && IsRequest(after[|before|], d, |before|)
            && (forall b ::
                  b != Bucket(d.season, context) ==> RecordsOf(o.state.store.index, b) == RecordsOf(st.index, b))
            && o.answer == Committed(|before|, cfg.rootOf(Commitments(before) + [d.commitment]), |before| + 1))
  {
    hide Inv, Coherent, StoreCoherent, Spent, Peers, Declared, Prepare, WriteAndMirror, Admissible, Found,
      RecordsOf, Members, Remember, Decide;
    PreparedStore(cfg, s, context, d, m);
    var ready := Prepare(cfg, s, d.season, context, m).state;
    WriteLeaves(cfg, ready, context, d, m);
    DecidesAsPromised(ready.store.index, d);
    if Decide(ready.store.index, d).Write? { WritesTheRequest(ready.store.index, d); }
  }

  lemma MirroredTree<T(!new)>(cfg: Season.Config<T>, s: State<T>, context: string, d: Request, r: Record, ts: int)
    requires Inv(cfg, s) && Level(s, d.season, context) && d.contextHash == context
    requires IsRequest(r, d, |Peers(s.store.index, d)|)
    ensures context in s.cache.contexts
    ensures var o, before := Mirror(cfg, s, context, r, ts), Peers(s.store.index, d);
      var members := Commitments(before) + [d.commitment];
      && o.Done? && context in o.state.cache.contexts
      && var c := o.state.cache.contexts[context];
         c.members == members && |c.roots| > 0
         && c.roots[|c.roots| - 1] == RootEntry(|members|, cfg.rootOf(members), ts)
  {
    hide StoreOk;
    var c := s.cache.contexts[context];
    assert ContextOk(cfg, c);
    UpdatedEntries(c.roots, RootEntry(|c.members| + 1, cfg.rootOf(c.members + [r.commitment]), ts), cfg.window);
  }

  /** The tree a registration leaves is the bucket with the request last, and the newest root accepted is that tree's,
      at its size and at the time of the commit. */
  lemma TreeTakesTheRequest<T(!new)>(cfg: Season.Config<T>, s: State<T>, context: string, d: Request,
    byNullifier: bool, m: Meets)
    requires Inv(cfg, s) && StoreCoherent(s.store) && s.cache.current == Some(d.season) && d.contextHash == context
    requires Reads(s, context, m) && (byNullifier ==> m.has.Answers?) && m.write in {Stale, Answered}
    ensures var o, before := Commit(cfg, s, context, d, byNullifier, m), Peers(Found(s, context, m).index, d);
      var members := Commitments(before) + [d.commitment];
      && o.Done?
      && (o.answer.Committed? ==>
            && context in o.state.cache.contexts
            && var c := o.state.cache.contexts[context];
               c.members == members && |c.roots| > 0
               && c.roots[|c.roots| - 1] == RootEntry(|members|, o.answer.root, m.ts))
  {
    hide Inv, Coherent, StoreCoherent, Spent, Peers, Prepare, Mirror, Admissible, Found, RecordsOf, Members, Remember,
      Decide, Commitments;
    PreparedStore(cfg, s, context, d, m);
    var ready := Prepare(cfg, s, d.season, context, m).state;
    WriteLeaves(cfg, ready, context, d, m);
    DecidesAsPromised(ready.store.index, d);
    if Decide(ready.store.index, d).Write? {
      Mirrored(cfg, ready, context, d, Decide(ready.store.index, d).record, m.ts);
      MirroredTree(cfg, ready, context, d, Decide(ready.store.index, d).record, m.ts);
    }
  }

  // ---- never past the season, whatever is met -----------------------------------------------------------

  /** The store with at most an uncertain record settled: nothing new in it. */
  predicate NothingNew(before: Store, after: Store) {
    after == before || after == Settle(before, true) || after == Settle(before, false)
  }

  lemma PrepareAddsNothing<T(!new)>(cfg: Season.Config<T>, s: State<T>, season: int, context: string, m: Meets)
    requires Inv(cfg, s) && s.cache.current == Some(season)
    ensures NothingNew(s.store, Prepare(cfg, s, season, context, m).state.store)
  {
    hide Inv, Build, Members;
  }

  /** What must be refused is: over an ended season, on a regressed clock, with an anchor too old or past the tree's
      last place, no commit registers and none leaves a record behind, whatever its awaits meet. */
  lemma NeverRegistersWhenRefused<T(!new)>(cfg: Season.Config<T>, s: State<T>, context: string, d: Request,
    byNullifier: bool, m: Meets)
    requires Inv(cfg, s) && d.contextHash == context
    requires (m.season.Some? && m.season.value != d.season) || m.regressed || m.write == Stale || !Admissible(d)
             || s.cache.current != Some(d.season)
    ensures var o := Commit(cfg, s, context, d, byNullifier, m);
      (o.Done? ==> !o.answer.Committed?) && NothingNew(s.store, o.state.store)
  {
    hide Inv, Prepare, Members, Admissible;
    if s.cache.current == Some(d.season) { PrepareAddsNothing(cfg, s, d.season, context, m); }
  }

  /** A commit throws exactly when an await it comes to throws: a read of its records, the question of the nullifier, or
      the write of a request that nothing refused. */
  lemma ThrowsExactlyWhen<T(!new)>(cfg: Season.Config<T>, s: State<T>, context: string, d: Request,
    byNullifier: bool, m: Meets)
    requires Inv(cfg, s) && StoreCoherent(s.store) && d.contextHash == context && s.cache.current == Some(d.season)
    ensures var threw := Commit(cfg, s, context, d, byNullifier, m).Threw?;
      if !Reads(s, context, m) || (byNullifier && m.has == Throws) then threw
      else
        var ix := Found(s, context, m).index;
        var declared := Declared(ix, d);
        threw <==>
          && MayWrite(cfg, |Peers(ix, d)|, d, m) && !(byNullifier && Spent(ix, d))
          && (m.write == FailedBefore
              || (m.write == FailedAfter && !Spent(ix, d)
                  && (declared.None? || declared.value == Declaration(d.engine, d.statement))))
  {
    hide Inv, Coherent, StoreCoherent, Spent, Peers, Declared, Prepare, Refusal, Admissible, Found, RecordsOf, Members,
      Remember, Decide, Mirror;
    PrepareThrows(cfg, s, context, d, m);
    if Reads(s, context, m) {
      PreparedStore(cfg, s, context, d, m);
      var ready := Prepare(cfg, s, d.season, context, m).state;
      RefusesExactlyWhen(cfg, ready, context, d, byNullifier, m);
      DecidesAsPromised(ready.store.index, d);
      if Decide(ready.store.index, d).Write? {
        Mirrored(cfg, ready, context, d, Decide(ready.store.index, d).record, m.ts);
      }
    }
  }

  /** And it leaves at most its own request behind, in doubt, if it was the write that threw having perhaps landed. */
  lemma ThrowsOnlyWithAnAwait<T(!new)>(cfg: Season.Config<T>, s: State<T>, context: string, d: Request,
    byNullifier: bool, m: Meets)
    requires Inv(cfg, s) && StoreCoherent(s.store) && d.contextHash == context
    requires Commit(cfg, s, context, d, byNullifier, m).Threw?
    ensures s.cache.current == Some(d.season)
    ensures var st := Commit(cfg, s, context, d, byNullifier, m).state.store;
      || !Reads(s, context, m) || (byNullifier && m.has.Throws?)
      || (m.write == FailedBefore && NothingNew(s.store, st))
      || (m.write == FailedAfter && NothingNew(s.store, Store(st.index, None)) && st.uncertain.Some?
          && IsRequest(st.uncertain.value, d, |Peers(st.index, d)|))
  {
    hide Inv, Prepare, Members, Admissible, Coherent, StoreCoherent, Spent, Declared, Peers, Mirror, Decide,
      Remember, Found, Refusal;
    if s.cache.current == Some(d.season) {
      PrepareThrows(cfg, s, context, d, m);
      PrepareAddsNothing(cfg, s, d.season, context, m);
      var ready := Prepare(cfg, s, d.season, context, m);
      if Reads(s, context, m) {
        PreparedStore(cfg, s, context, d, m);
        assert ready.state.store == Store(ready.state.store.index, None);
        DecidesAsPromised(ready.state.store.index, d);
        if Decide(ready.state.store.index, d).Write? {
          Mirrored(cfg, ready.state, context, d, Decide(ready.state.store.index, d).record, m.ts);
        }
      }
    }
  }

  lemma PrepareThrows<T(!new)>(cfg: Season.Config<T>, s: State<T>, context: string, d: Request, m: Meets)
    requires Inv(cfg, s) && s.cache.current == Some(d.season)
    ensures Prepare(cfg, s, d.season, context, m).Done? ==> Reads(s, context, m)
  {
    hide Inv, Members, Build;
  }

  // ---- over every run ---------------------------------------------------------------------------------

  lemma NothingNewCoherent(before: Store, after: Store)
    requires StoreCoherent(before) && NothingNew(before, after)
    ensures StoreCoherent(after)
  {
    hide Coherent, Appendable;
    SettleCoherent(before, true);
    SettleCoherent(before, false);
  }

  /** The write raises or remembers only what an append decides. */
  lemma WriteCoherent<T(!new)>(cfg: Season.Config<T>, s: State<T>, context: string, d: Request, m: Meets)
    requires StoreCoherent(s.store) && s.store.uncertain.None? && context in s.cache.contexts
    ensures StoreCoherent(WriteAndMirror(cfg, s, context, d, m).state.store)
  {
    hide Coherent, Remember, Build;
    if Admissible(d) && Decide(s.store.index, d).Write? {
      AppendableIs(s.store.index, d);
      RememberCoherent(s.store.index, Decide(s.store.index, d).record);
    }
  }

  lemma AppendableIs(ix: Index, d: Request)
    requires Admissible(d) && Decide(ix, d).Write?
    ensures Appendable(ix, Decide(ix, d).record)
  {
  }

  lemma CommitCoherent<T(!new)>(cfg: Season.Config<T>, s: State<T>, context: string, d: Request,
    byNullifier: bool, m: Meets)
    requires Inv(cfg, s) && StoreCoherent(s.store)
    ensures StoreCoherent(Commit(cfg, s, context, d, byNullifier, m).state.store)
  {
    hide Inv, StoreCoherent, Prepare, WriteAndMirror, Refusal, Members, Level;
    if s.cache.current == Some(d.season) {
      PrepareAddsNothing(cfg, s, d.season, context, m);
      PrepareKeeps(cfg, s, d.season, context, m);
      var ready := Prepare(cfg, s, d.season, context, m);
      NothingNewCoherent(s.store, ready.state.store);
      if ready.Done? && context in ready.state.cache.contexts { WriteCoherent(cfg, ready.state, context, d, m); }
    }
  }

  lemma ReadsAddNothing<T(!new)>(cfg: Season.Config<T>, s: State<T>, e: Event)
    requires !e.DoCommit?
    ensures NothingNew(s.store, Step(cfg, s, e).store)
  {
    hide Members, Build;
  }

  /** In every run over a coherent log the season sees a coherent one. */
  lemma {:induction false} RunCoherent<T(!new)>(cfg: Season.Config<T>, ix: Index, events: seq<Event>)
    requires Bounded(cfg, ix) && Coherent(ix)
    ensures StoreCoherent(Run(cfg, Start(ix), events).store)
  {
    hide Inv, Step, StoreCoherent, Commit, NothingNew, Bounded;
    if |events| == 0 {
      StartCoherent<T>(ix);
    } else {
      var front, e := events[..|events| - 1], events[|events| - 1];
      RunCoherent(cfg, ix, front);
      RunKeeps(cfg, ix, front);
      var s := Run(cfg, Start(ix), front);
      if e.DoCommit? {
        CommitCoherent(cfg, s, e.d.contextHash, e.d, e.byNullifier, e.meets);
        CommitStep(cfg, s, e);
      } else {
        ReadsAddNothing(cfg, s, e);
        NothingNewCoherent(s.store, Step(cfg, s, e).store);
      }
    }
  }

  lemma StartCoherent<T>(ix: Index)
    requires Coherent(ix)
    ensures var s: State<T> := Start(ix); StoreCoherent(s.store)
  {
    hide Coherent;
  }

  lemma CommitStep<T(!new)>(cfg: Season.Config<T>, s: State<T>, e: Event)
    requires e.DoCommit?
    ensures Step(cfg, s, e) == Commit(cfg, s, e.d.contextHash, e.d, e.byNullifier, e.meets).state
  {
  }

  /** So in every run: a commit whose reads and write answer registers the request exactly when nothing refuses
      it, and it registers the request itself. */
  lemma RunRegistersExactlyWhen<T(!new)>(cfg: Season.Config<T>, ix: Index, events: seq<Event>, d: Request,
    byNullifier: bool, m: Meets)
    requires Bounded(cfg, ix) && Coherent(ix)
    requires var s := Run(cfg, Start(ix), events);
      && s.cache.current == Some(d.season) && Reads(s, d.contextHash, m) && (byNullifier ==> m.has.Answers?)
      && m.write in {Stale, Answered}
    ensures var s := Run(cfg, Start(ix), events);
      var o, found := Commit(cfg, s, d.contextHash, d, byNullifier, m), Found(s, d.contextHash, m).index;
      var before, after, declared := Peers(found, d), Peers(o.state.store.index, d), Declared(found, d);
      && o.Done?
      && (o.answer.Committed? <==>
            !Spent(found, d) && MayWrite(cfg, |before|, d, m)
            && (declared.None? || declared.value == Declaration(d.engine, d.statement)))
      && (o.answer.Committed? ==> |after| == |before| + 1 && IsRequest(after[|before|], d, |before|))
      && (!o.answer.Committed? ==> after == before)
  {
    hide Inv, Run, StoreCoherent, Commit, Bounded, Found, MayWrite, Spent, Coherent;
    RunKeeps(cfg, ix, events);
    RunCoherent(cfg, ix, events);
    var s := Run(cfg, Start(ix), events);
    AnswersExactlyWhen(cfg, s, d.contextHash, d, byNullifier, m);
    RegistersTheRequest(cfg, s, d.contextHash, d, byNullifier, m);
  }

  // ---- the other operations ----------------------------------------------------------------------------

  /** A roll is refused exactly when it would go back under `monotonic`. */
  lemma RollsExactlyWhen<T>(cfg: Season.Config<T>, s: State<T>, season: int)
    ensures Roll(cfg, s, season).Threw? <==> cfg.monotonic && s.cache.current.Some? && season < s.cache.current.value
    ensures Roll(cfg, s, season).state.store == s.store
  {
  }

  /** A recovery answers that the season is over exactly when it is not the season asked for, and then changes
      nothing; otherwise whether members were put back, and how many the tree has now. */
  lemma RecoversExactlyWhen<T(!new)>(cfg: Season.Config<T>, s: State<T>, season: int, context: string,
    landed: bool, ts: int)
    requires Inv(cfg, s)
    ensures var o, ix := RecoverMember(cfg, s, season, context, Answers(landed), ts), Settle(s.store, landed).index;
      var n := |RecordsOf(ix, Bucket(season, context))|;
      && o.Done?
      && (s.cache.current != Some(season) ==> o == Done(s, SeasonOver))
      && (s.cache.current == Some(season) ==>
            o.answer == Recovered(SizeOf(s, context) < n, n) && o.state.store == Store(ix, None))
  {
    if s.cache.current == Some(season) {
      hide Inv, Build, Grew, AllGrew;
      ReconcileKeeps(cfg, s, season, context, Answers(landed), ts);
      SettleKeeps(cfg, s, landed);
    }
  }

  /** A context is first read exactly once: with records it gets a tree of all of them, and the call is refused
      only by the roll. */
  lemma FirstReadsExactlyWhen<T(!new)>(cfg: Season.Config<T>, s: State<T>, season: int, context: string,
    landed: bool, ts: int)
    requires Inv(cfg, s)
    ensures var o := EnsureContext(cfg, s, season, context, Answers(landed), ts);
      && (o.Threw? <==> Roll(cfg, s, season).Threw?)
      && (o.Done? && !(s.cache.current == Some(season) && context in s.cache.contexts) ==>
            var members := Members(Settle(s.store, landed).index, season, context);
            && o.state.store == Settle(s.store, landed)
            && (context in o.state.cache.contexts <==> members != [])
            && (members != [] ==> o.state.cache.contexts[context].members == members))
  {
    hide Inv, Build, Grew, AllGrew, Members;
    RollKeeps(cfg, s, season);
    var rolled := Roll(cfg, s, season);
    if rolled.Done? && context !in rolled.state.cache.contexts {
      SettleKeeps(cfg, rolled.state, landed);
      MaterializeKeeps(cfg, rolled.state.(store := Settle(rolled.state.store, landed)), context, ts);
    }
    EnsureContextKeeps(cfg, s, season, context, Answers(landed), ts);
  }
}
