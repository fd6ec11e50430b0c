/**
  Where the components meet: the members root the gateway serves is the root a restart would rebuild. The
  log's machine and the season's run together (`SeasonOverLog`); a context whose last operation was answered
  has, as its tree, its bucket of whatever file any power loss would leave; and the tree object's own root,
  appended to leaf by leaf or rebuilt in one pass, is the padded root of that bucket.
 */
module ServedRoot {
  import opened FieldElements
  import opened LogFile
  import opened LogStore
  import opened PaddedTree
  import opened RegistrationLog
  import opened SeasonMembers
  import opened SeasonOverLog
  import opened Wrappers
  import G = RegistrationGuarantees
  import MT = MembersTree
  import P = RegistrationProtocol
  import S = Season

  /** The records of any survivor are the base's or all the visible ones. */
  lemma SurvivorRecords(cfg: Config, s: P.State, x: File)
    requires P.Inv(cfg, s) && G.Survivor(s, x)
    ensures Load(cfg, Content(x)).Ok? && Load(cfg, Content(x)).value == IndexOf(Recs(x))
    ensures Recs(x) == Base(s) || Recs(x) == Recs(s.visible)
  {
    hide P.ViewOk, P.HistoryOk, P.AppendOk, P.LoadOk, Load, Recs;
    DiskLoads(cfg, s.durable, x, s.visible);
    RecsBetween(cfg, s.durable, x, s.visible);
    DurableBetween(cfg, s);
  }

  /** So a load of it finds the index shown, with the record in doubt or without. */
  lemma SurvivorIndex(cfg: Config, s: P.State, x: File)
    requires P.Inv(cfg, s) && G.Survivor(s, x)
    ensures Load(cfg, Content(x)).Ok?
    ensures var ix := Load(cfg, Content(x)).value; ix == Shown(s).index || ix == S.Settle(Shown(s), true).index
  {
    hide P.Inv, Load, Recs;
    SurvivorRecords(cfg, s, x);
    ShownIndex(cfg, s);
    AppendSettles(Base(s), Recs(s.visible));
  }

  /** A level context's bucket is in every file that can be left, exactly as its tree has it. */
  lemma LevelBucket<T>(cache: S.Cache<T>, st: S.Store, level: set<string>, context: string, ix: Index)
    requires LevelOk(cache, st, level) && context in level && (ix == st.index || ix == S.Settle(st, true).index)
    ensures cache.current.Some? && context in cache.contexts
    ensures cache.contexts[context].members == S.Members(ix, cache.current.value, context)
  {
    if st.uncertain.Some? {
      var b := Bucket(cache.current.value, context);
      assert RecordsOf(S.Settle(st, true).index, b) == RecordsOf(st.index, b);
    }
  }

  /** In every run, for every context whose last operation was answered, and whatever file a power loss at
      this moment would leave: the tree is that file's bucket. */
  lemma ServedMembersAreDurable<T(!new)>(cfg: Config, scfg: S.Config<T>, f: File, events: seq<Event>, context: string,
                                         x: File)
    requires Fits(cfg, scfg, f)
    requires var j := Run(cfg, scfg, Start(f), events); context in j.level && G.Survivor(j.log, x)
    ensures var j := Run(cfg, scfg, Start(f), events);
      && Load(cfg, Content(x)).Ok? && j.cache.current.Some? && context in j.cache.contexts
      && j.cache.contexts[context].members == S.Members(Load(cfg, Content(x)).value, j.cache.current.value, context)
  {
    hide P.Inv, S.Inv, LevelOk, Shown, OpOk, Run, Fits, S.Settle, Load;
    var j := Run(cfg, scfg, Start(f), events);
    RunKeeps(cfg, scfg, f, events);
    SurvivorIndex(cfg, j.log, x);
    LevelBucket(j.cache, Shown(j.log), j.level, context, Load(cfg, Content(x)).value);
  }

  /** And the newest root accepted for it is the padded root of that bucket. */
  lemma ServedRootIsTheRestartRoot<T(!new)>(
      h: (T, T) -> T, z: T, field: string -> Option<T>, depth: nat, window: nat, monotonic: bool,
      cfg: Config, f: File, events: seq<Event>, context: string, x: File)
    requires Converts(field) && Fits(cfg, ConfigFor(h, z, field, depth, window, monotonic), f)
    requires var j := Run(cfg, ConfigFor(h, z, field, depth, window, monotonic), Start(f), events);
      context in j.level && G.Survivor(j.log, x)
    ensures var j := Run(cfg, ConfigFor(h, z, field, depth, window, monotonic), Start(f), events);
      && Load(cfg, Content(x)).Ok? && j.cache.current.Some? && context in j.cache.contexts
      && var members := S.Members(Load(cfg, Content(x)).value, j.cache.current.value, context);
         var roots := j.cache.contexts[context].roots;
         && MT.AllConvert(field, members)
         && |roots| > 0 && roots[|roots| - 1].root == Root(h, z, MT.Leaves(field, members), depth)
  {
    hide P.Inv, OpOk, Run, Fits, S.Members, Load, LevelOk, S.StoreOk, Converts;
    var scfg := ConfigFor(h, z, field, depth, window, monotonic);
    var j := Run(cfg, scfg, Start(f), events);
    ServedMembersAreDurable(cfg, scfg, f, events, context, x);
    RunKeeps(cfg, scfg, f, events);
    LoadIsCoherent(cfg, Content(x));
    DurableMembersConvert(field, Load(cfg, Content(x)).value, j.cache.current.value, context);
    var c := j.cache.contexts[context];
    assert c.members[..|c.members|] == c.members;
  }

  /** The tree object of the context has the padded root of the commitments a load of this file lists. */
  ghost predicate Serves<T(!new)>(m: SeasonMembers<T>, cfg: Config, context: string, x: File)
    requires m.Valid()
    reads m, m.Repr
  {
    && Load(cfg, Content(x)).Ok? && m.current.Some? && context in m.ctx
    && var members := S.Members(Load(cfg, Content(x)).value, m.current.value, context);
       && MT.AllConvert(m.field, members)
       && m.ctx[context].tree.root == Root(m.h, m.z, MT.Leaves(m.field, members), m.depth)
  }

  /** The same of the root a tree object holds, for any season manager that has come to what the run says. */
  lemma ServedTreeIsTheRestartTree<T(!new)>(m: SeasonMembers<T>, cfg: Config, f: File, events: seq<Event>,
                                            context: string, x: File)
    requires m.Valid() && Fits(cfg, m.cfg, f)
    requires var j := Run(cfg, m.cfg, Start(f), events);
      m.cache == j.cache && context in j.level && G.Survivor(j.log, x)
    ensures Serves(m, cfg, context, x)
  {
    hide P.Inv, S.Inv, Run, Fits, S.Members, Load;
    ServedMembersAreDurable(cfg, m.cfg, f, events, context, x);
    m.SoundFacts(context);
    m.RootIs(context);
    LoadIsCoherent(cfg, Content(x));
    DurableMembersConvert(m.field, Load(cfg, Content(x)).value, m.current.value, context);
  }

  /** Such a manager there is for every run, an object taken through its season's operations one by one: what
      it comes to serve, for every context answered, is what any restart would. `RunIsSeason` gives every run
      its operations. */
  method Serve<T(==, !new)>(h: (T, T) -> T, z: T, field: string -> Option<T>, depth: nat, window: nat, monotonic: bool,
                            cfg: Config, f: File, ghost events: seq<Event>, evs: seq<S.Event>)
    returns (m: SeasonMembers<T>)
    requires Converts(field) && Fits(cfg, ConfigFor(h, z, field, depth, window, monotonic), f)
    requires var scfg := ConfigFor(h, z, field, depth, window, monotonic);
      Seen(Run(cfg, scfg, Start(f), events)) == S.Run(scfg, S.Start(Load(cfg, Content(f)).value), evs)
    ensures m.Valid() && m.h == h && m.z == z && m.field == field && m.depth == depth
    ensures m.cfg == ConfigFor(h, z, field, depth, window, monotonic)
    ensures var j := Run(cfg, m.cfg, Start(f), events);
      && m.cache == j.cache
      && forall context, x :: context in j.level && G.Survivor(j.log, x) ==> Serves(m, cfg, context, x)
  {
    hide P.Inv, S.Inv, Run, S.Run, S.Bounded, Load, Coherent, Converts, Serves, G.Survivor, OpOk, LevelOk;
    LoadIsCoherent(cfg, Content(f));
    m := Replay(h, z, field, depth, window, monotonic, Load(cfg, Content(f)).value, evs);
    forall context, x |
      context in Run(cfg, m.cfg, Start(f), events).level && G.Survivor(Run(cfg, m.cfg, Start(f), events).log, x)
      ensures Serves(m, cfg, context, x)
    {
      ServedTreeIsTheRestartTree(m, cfg, f, events, context, x);
    }
  }

  lemma SurvivorFits<T(!new)>(cfg: Config, scfg: S.Config<T>, j: Joint<T>, x: File)
    requires JointOk(cfg, scfg, j) && G.Survivor(j.log, x)
    ensures Load(cfg, Content(x)).Ok? && Coherent(Load(cfg, Content(x)).value)
      && S.Bounded(scfg, Load(cfg, Content(x)).value)
  {
    hide P.Inv, OpOk, LevelOk, Shown, S.Bounded, Load, S.ContextOk, Coherent;
    SurvivorIndex(cfg, j.log, x);
    LoadIsCoherent(cfg, Content(x));
  }

  /** The restart itself: a new process loads whatever was left and materializes the context, and its tree
      object has the root that was being served. */
  method Restart<T(==, !new)>(m: SeasonMembers<T>, cfg: Config, f: File, ghost events: seq<Event>, context: string,
                              x: File, ts: int)
    returns (again: SeasonMembers<T>)
    requires m.Valid() && Fits(cfg, m.cfg, f)
    requires var j := Run(cfg, m.cfg, Start(f), events);
      m.cache == j.cache && context in j.level && G.Survivor(j.log, x)
    ensures again.Valid() && again.current == m.current && m.Valid() && context in m.ctx
    ensures if context in again.ctx then again.ctx[context].tree.root == m.ctx[context].tree.root
            else m.ctx[context].tree.commitments == []
  {
    hide P.Inv, S.Inv, Run, Fits, S.Members, Load, S.Level, S.Bounded, Coherent, S.EnsureContext, Converts,
         MT.AllConvert, G.Survivor;
    RestartFacts(m, cfg, f, events, context, x);
    var ix := Load(cfg, Content(x)).value;
    again := new SeasonMembers<T>(m.h, m.z, m.field, m.depth, m.cfg.window, m.cfg.monotonic, S.Store(ix, None));
    FirstRead(m.cfg, ix, m.current.value, context, ts);
    var threw := again.DoEnsureContext(m.current.value, context, S.Answers(true), ts);
    again.SoundFacts(context);
  }

  lemma RestartFacts<T(!new)>(m: SeasonMembers<T>, cfg: Config, f: File, events: seq<Event>, context: string, x: File)
    requires m.Valid() && Fits(cfg, m.cfg, f)
    requires var j := Run(cfg, m.cfg, Start(f), events);
      m.cache == j.cache && context in j.level && G.Survivor(j.log, x)
    ensures m.cfg == ConfigFor(m.h, m.z, m.field, m.depth, m.cfg.window, m.cfg.monotonic) && Converts(m.field)
    ensures Load(cfg, Content(x)).Ok? && m.current.Some? && context in m.ctx
    ensures var ix := Load(cfg, Content(x)).value;
      && Coherent(ix) && S.Bounded(m.cfg, ix)
      && var members := S.Members(ix, m.current.value, context);
         && MT.AllConvert(m.field, members) && m.ctx[context].tree.commitments == members
         && m.ctx[context].tree.root == Root(m.h, m.z, MT.Leaves(m.field, members), m.depth)
  {
    hide P.Inv, S.Inv, Run, Fits, S.Members, Load, S.Bounded, Coherent, Converts, MT.AllConvert, G.Survivor, JointOk;
    ServedMembersAreDurable(cfg, m.cfg, f, events, context, x);
    ServedTreeIsTheRestartTree(m, cfg, f, events, context, x);
    RunKeeps(cfg, m.cfg, f, events);
    SurvivorFits(cfg, m.cfg, Run(cfg, m.cfg, Start(f), events), x);
    m.ConfigIs();
    m.RootIs(context);
    m.ShownAre(context);
  }

  /** The first read of a fresh season: it is answered, and a context with records has its tree. */
  lemma FirstRead<T(!new)>(scfg: S.Config<T>, ix: Index, season: int, context: string, ts: int)
    requires S.Bounded(scfg, ix)
    ensures var o := S.EnsureContext(scfg, S.Start(ix), season, context, S.Answers(true), ts);
      && o.Done? && o.state.store == S.Store(ix, None) && o.state.cache.current == Some(season)
      && (context in o.state.cache.contexts <==> S.Members(ix, season, context) != [])
  {
    hide S.Build;
    assert |RecordsOf(ix, Bucket(season, context))| <= scfg.capacity;
  }
}
