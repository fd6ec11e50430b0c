/**
  The season's members trees as a cache of the registration log (core/season.js). Operations are queued,
  so each one here is a whole operation; the awaits inside it show as outcomes the caller supplies: a
  store read that throws, a durable write that throws with its record landed or not, a clock that has
  moved. A tree is held by its commitments; that its root is the padded root of those commitments,
  whatever built it, is `MembersTree`'s theorem.
 */
module Season {
  import opened Wrappers
  import opened RegistrationLog
  import opened RootStore

  /** The store as the season sees it: what reads return, and a record whose write threw and which later
      reads may or may not show. */
  datatype Store = Store(index: Index, uncertain: Option<Record>)

  /** One read: it throws, or it answers, settling whether an uncertain record landed. */
  datatype Access = Throws | Answers(landed: bool)

  function Settle(st: Store, landed: bool): Store {
    match st.uncertain
    case None => st
    case Some(r) => Store(if landed then Remember(st.index, r) else st.index, None)
  }

  function Commitments(records: seq<Record>): (r: seq<string>)
    ensures |r| == |records| && forall i :: 0 <= i < |records| ==> r[i] == records[i].commitment
  {
    if |records| == 0 then [] else Commitments(records[..|records| - 1]) + [records[|records| - 1].commitment]
  }

  /** The durable members of a context, in order. */
  function Members(ix: Index, season: int, context: string): seq<string> {
    Commitments(RecordsOf(ix, Bucket(season, context)))
  }

  datatype Context<T> = Context(members: seq<string>, roots: seq<RootEntry<T>>)

  /** current: the season the trees are for; contexts with a tree, and the window of roots accepted. */
  datatype Cache<T> = Cache(current: Option<int>, contexts: map<string, Context<T>>)

  datatype Config<!T> = Config(rootOf: seq<string> -> T, capacity: nat, window: nat, monotonic: bool)

  datatype State<T> = State(cache: Cache<T>, store: Store)

  // ---- building --------------------------------------------------------------------------------------

  /** A tree over these members; its root joins the window it is given. */
  function Build<T>(cfg: Config<T>, roots: seq<RootEntry<T>>, members: seq<string>, ts: int): Context<T> {
    Context(members, Updated(roots, [RootEntry(|members|, cfg.rootOf(members), ts)], cfg.window))
  }

  function WithContext<T>(s: State<T>, context: string, c: Context<T>): State<T> {
    s.(cache := s.cache.(contexts := s.cache.contexts[context := c]))
  }

  function SizeOf<T>(s: State<T>, context: string): nat {
    if context in s.cache.contexts then |s.cache.contexts[context].members| else 0
  }

  /** What an operation ends with: the new state and an answer, or an exception that leaves the state as
      given. */
  datatype Outcome<T, A> = Done(state: State<T>, answer: A) | Threw(state: State<T>)

  /** Roll to the season, discarding every tree if it changed; backwards only without `monotonic`. */
  function Roll<T>(cfg: Config<T>, s: State<T>, season: int): Outcome<T, ()> {
    if cfg.monotonic && s.cache.current.Some? && season < s.cache.current.value then Threw(s)
    else if s.cache.current == Some(season) then Done(s, ())
    else Done(s.(cache := Cache(Some(season), map[])), ())
  }

  /** The first tree of a context, from its records. More records than the tree can hold throws. */
  function Materialize<T>(cfg: Config<T>, s: State<T>, context: string, members: seq<string>, ts: int): Outcome<T, ()> {
    if |members| > cfg.capacity then Threw(s) else Done(WithContext(s, context, Build(cfg, [], members, ts)), ())
  }

  /** Rebuild when the tree is behind its records, keeping the window of roots already accepted. */
  function ReconcileIfBehind<T>(cfg: Config<T>, s: State<T>, season: int, context: string, read: Access,
                                ts: int): Outcome<T, bool> {
    match read
    case Throws => Threw(s)
    case Answers(landed) =>
      var s' := s.(store := Settle(s.store, landed));
      var members := Members(s'.store.index, season, context);
      if |members| <= SizeOf(s', context) then Done(s', false)
      else if |members| > cfg.capacity then Threw(s')
      else
        var roots := if context in s'.cache.contexts then s'.cache.contexts[context].roots else [];
        Done(WithContext(s', context, Build(cfg, roots, members, ts)), true)
  }

  // ---- the operations --------------------------------------------------------------------------------

  function Ensure<T>(cfg: Config<T>, s: State<T>, season: int): Outcome<T, ()> {
    Roll(cfg, s, season)
  }

  function EnsureContext<T>(cfg: Config<T>, s: State<T>, season: int, context: string, read: Access,
                            ts: int): Outcome<T, ()> {
    var rolled := Roll(cfg, s, season);
    if rolled.Threw? || context in rolled.state.cache.contexts then rolled
    else match read
         case Throws => Threw(rolled.state)
         case Answers(landed) =>
           var s' := rolled.state.(store := Settle(rolled.state.store, landed));
           var members := Members(s'.store.index, season, context);
           if |members| == 0 then Done(s', ()) else Materialize(cfg, s', context, members, ts)
  }

  datatype Recovery = SeasonOver | Recovered(rebuilt: bool, size: nat)

  /** Never rolls: a season that has ended has nothing to recover into. */
  function RecoverMember<T>(cfg: Config<T>, s: State<T>, season: int, context: string, read: Access,
                            ts: int): Outcome<T, Recovery> {
    if s.cache.current != Some(season) then Done(s, SeasonOver)
    else
      var r := ReconcileIfBehind(cfg, s, season, context, read, ts);
      if r.Threw? then Threw(r.state) else Done(r.state, Recovered(r.answer, SizeOf(r.state, context)))
  }

  datatype Reply<T> =
    | SeasonRolled | AlreadyRegistered | TreeFull | ClockRegressed | StatementMismatch | InvalidStatement | StaleRoot
    | IndexTreeMismatch | Committed(index: nat, root: T, size: nat)

  /** How the durable write went: the anchor aged out before it, it threw with nothing written, it threw
      with the record perhaps written, or it answered. */
  datatype WriteOutcome = Stale | FailedBefore | FailedAfter | Answered

  /** What the awaits of one commit meet. */
  datatype Meets = Meets(materialize: Access, reconcile: Access, has: Access, season: Option<int>, regressed: bool,
                         write: WriteOutcome, ts: int)

  /** The tree the commit works on, level with the durable records. */
  function Prepare<T>(cfg: Config<T>, s: State<T>, season: int, context: string, m: Meets): Outcome<T, bool> {
    if context in s.cache.contexts then ReconcileIfBehind(cfg, s, season, context, m.reconcile, m.ts)
    else match m.materialize
         case Throws => Threw(s)
         case Answers(landed) =>
           var s' := s.(store := Settle(s.store, landed));
           var built := Materialize(cfg, s', context, Members(s'.store.index, season, context), m.ts);
           if built.Threw? then Threw(built.state)
               else ReconcileIfBehind(cfg, built.state, season, context, m.reconcile, m.ts)
  }

  /** The refusals between the reconcile and the write. nullifier is absent when the caller supplies none. */
  function Refusal<T>(cfg: Config<T>, s: State<T>, season: int, context: string, d: Request, byNullifier: bool,
                      m: Meets): Option<Reply<T>> {
    if byNullifier && KeyOf(RecordFor(d, 0)) in s.store.index.seen then Some(AlreadyRegistered)
    else if SizeOf(s, context) >= cfg.capacity then Some(TreeFull)
    else if m.season.Some? && m.season.value != season then Some(SeasonRolled)
    else if m.regressed then Some(ClockRegressed)
    else None
  }

  /** A record that landed takes the tree's next place, or is refused one. */
  function Mirror<T>(cfg: Config<T>, s: State<T>, context: string, r: Record, ts: int): Outcome<T, Reply<T>>
    requires context in s.cache.contexts && r.index >= 0
  {
    var s' := s.(store := Store(Remember(s.store.index, r), None));
    var c := s.cache.contexts[context];
    if r.index != |c.members| then Done(s', IndexTreeMismatch)
    else
      var c' := Build(cfg, c.roots, c.members + [r.commitment], ts);
      Done(WithContext(s', context, c'), Committed(r.index, cfg.rootOf(c'.members), |c'.members|))
  }

  /** The durable write, and the append to the tree that mirrors it. */
  function WriteAndMirror<T>(cfg: Config<T>, s: State<T>, context: string, d: Request, m: Meets): Outcome<T, Reply<T>>
    requires context in s.cache.contexts
  {
    if m.write == Stale then Done(s, StaleRoot)
    else if !Admissible(d) then Done(s, InvalidStatement)
    else if m.write == FailedBefore then Threw(s)
    else
      var decision := Decide(s.store.index, d);
      if decision.Duplicate? then Done(s, AlreadyRegistered)
      else if decision.Conflict? then Done(s, StatementMismatch)
      else if m.write == FailedAfter then Threw(s.(store := Store(s.store.index, Some(decision.record))))
      else Mirror(cfg, s, context, decision.record, m.ts)
  }

  /** Whether the nullifier is already spent is asked of the store again, which can throw too. */
  function Commit<T>(cfg: Config<T>, s: State<T>, context: string, d: Request, byNullifier: bool,
                     m: Meets): Outcome<T, Reply<T>> {
    if s.cache.current != Some(d.season) then Done(s, SeasonRolled)
    else
      var ready := Prepare(cfg, s, d.season, context, m);
      if ready.Threw? then Threw(ready.state)
      else if byNullifier && m.has == Throws then Threw(ready.state)
      else
        var refusal := Refusal(cfg, ready.state, d.season, context, d, byNullifier, m);
        if refusal.Some? then Done(ready.state, refusal.value)
        else if context !in ready.state.cache.contexts then Threw(ready.state)
        else WriteAndMirror(cfg, ready.state, context, d, m)
  }

  // ---- the invariant ---------------------------------------------------------------------------------

  ghost predicate Bounded<T(!new)>(cfg: Config<T>, ix: Index) {
    forall b: Bucket {:trigger RecordsOf(ix, b)} :: |RecordsOf(ix, b)| <= cfg.capacity
  }

  /** No bucket outgrows a tree, whether or not the uncertain record landed. */
  ghost predicate StoreOk<T(!new)>(cfg: Config<T>, st: Store) {
    && Bounded(cfg, st.index)
    && (st.uncertain.Some? ==> Bounded(cfg, Remember(st.index, st.uncertain.value)))
  }

  /** Every root accepted is the root of some prefix of the tree's members, and the newest is the root of
      all of them. */
  ghost predicate ContextOk<T(!new)>(cfg: Config<T>, c: Context<T>) {
    && Ascending(c.roots) && |c.roots| > 0 && c.roots[|c.roots| - 1].height == |c.members|
    && (cfg.window > 0 ==> |c.roots| <= cfg.window)
    && forall i :: 0 <= i < |c.roots| ==>
         0 <= c.roots[i].height <= |c.members| && c.roots[i].root == cfg.rootOf(c.members[..c.roots[i].height])
  }

  /** Each tree is a prefix of the durable bucket for the current season. */
  ghost predicate Inv<T(!new)>(cfg: Config<T>, s: State<T>) {
    && StoreOk(cfg, s.store)
    && (s.cache.contexts != map[] ==> s.cache.current.Some?)
    && forall c {:trigger s.cache.contexts[c]} :: c in s.cache.contexts ==>
         && ContextOk(cfg, s.cache.contexts[c])
         && s.cache.contexts[c].members <= Members(s.store.index, s.cache.current.value, c)
  }

  /** What the store's own machine guarantees of it: a coherent index, and an uncertain record that an append decided
      against it. */
  ghost predicate StoreCoherent(st: Store) {
    Coherent(st.index) && (st.uncertain.Some? ==> Appendable(st.index, st.uncertain.value))
  }

  lemma SettleCoherent(st: Store, landed: bool)
    requires StoreCoherent(st)
    ensures StoreCoherent(Settle(st, landed)) && Settle(st, landed).uncertain.None?
  {
    if st.uncertain.Some? { RememberCoherent(st.index, st.uncertain.value); }
  }

  /** The context's tree is all of the durable bucket. */
  predicate Level<T>(s: State<T>, season: int, context: string) {
    context in s.cache.contexts && s.cache.contexts[context].members == Members(s.store.index, season, context)
  }

  // ---- lemmas ----------------------------------------------------------------------------------------

  lemma CommitmentsAppend(records: seq<Record>, r: Record)
    ensures Commitments(records + [r]) == Commitments(records) + [r.commitment]
  {
    assert (records + [r])[..|records|] == records;
  }

  /** Remembering a record only lengthens its bucket. */
  lemma MembersGrow(ix: Index, r: Record, season: int, context: string)
    ensures Members(ix, season, context) <= Members(Remember(ix, r), season, context)
    ensures Bucket(season, context) == BucketOf(r) ==>
      Members(Remember(ix, r), season, context) == Members(ix, season, context) + [r.commitment]
  {
    CommitmentsAppend(RecordsOf(ix, BucketOf(r)), r);
  }

  lemma SettleKeeps<T(!new)>(cfg: Config<T>, s: State<T>, landed: bool)
    requires Inv(cfg, s)
    ensures Inv(cfg, s.(store := Settle(s.store, landed))) && Settle(s.store, landed).uncertain.None?
  {
    if s.store.uncertain.Some? && landed {
      forall c | c in s.cache.contexts
        ensures s.cache.contexts[c].members <= Members(Remember(s.store.index, s.store.uncertain.value),
          s.cache.current.value, c)
      {
        MembersGrow(s.store.index, s.store.uncertain.value, s.cache.current.value, c);
      }
    }
  }

  /** Building from a list that extends the window's own members. */
  lemma BuildIsOk<T(!new)>(cfg: Config<T>, roots: seq<RootEntry<T>>, before: seq<string>, members: seq<string>, ts: int)
    requires before <= members && Ascending(roots)
    requires forall i :: 0 <= i < |roots| ==>
      0 <= roots[i].height <= |before| && roots[i].root == cfg.rootOf(before[..roots[i].height])
    ensures ContextOk(cfg, Build(cfg, roots, members, ts))
  {
    var e := RootEntry(|members|, cfg.rootOf(members), ts);
    UpdatedEntries(roots, e, cfg.window);
    var kept := Updated(roots, [e], cfg.window);
    hide Updated, Ascending;
    forall i | 0 <= i < |kept|
      ensures 0 <= kept[i].height <= |members| && kept[i].root == cfg.rootOf(members[..kept[i].height])
    {
      if kept[i] == e {
        assert members[..|members|] == members;
      } else {
        PrefixRoot(cfg, roots, before, members, kept[i]);
      }
    }
  }

  lemma PrefixRoot<T(!new)>(cfg: Config<T>, roots: seq<RootEntry<T>>, before: seq<string>, members: seq<string>,
                            x: RootEntry<T>)
    requires before <= members && x in roots
    requires forall i :: 0 <= i < |roots| ==>
      0 <= roots[i].height <= |before| && roots[i].root == cfg.rootOf(before[..roots[i].height])
    ensures 0 <= x.height <= |members| && x.root == cfg.rootOf(members[..x.height])
  {
    var k :| 0 <= k < |roots| && roots[k] == x;
    assert before[..roots[k].height] == members[..roots[k].height];
  }

  lemma PlaceKeeps<T(!new)>(cfg: Config<T>, s: State<T>, context: string, c: Context<T>)
    requires Inv(cfg, s) && s.cache.current.Some? && ContextOk(cfg, c)
    requires c.members <= Members(s.store.index, s.cache.current.value, context)
    ensures Inv(cfg, WithContext(s, context, c))
  {
  }

  // ---- accepted roots outlive rebuilds -----------------------------------------------------------------

  /** From a to b some members joined, and the window is the one a had with newer entries behind it, cut to
      its size: never more of them than members that joined, nor than `most`. */
  ghost predicate Grew<T(!new)>(cfg: Config<T>, a: Context<T>, b: Context<T>, most: nat) {
    && a.members <= b.members
    && exists newer :: |newer| <= most && |newer| <= |b.members| - |a.members|
         && Pushed(cfg.window, a.roots, newer, b.roots)
  }

  ghost predicate Pushed<T>(window: nat, a: seq<RootEntry<T>>, newer: seq<RootEntry<T>>, b: seq<RootEntry<T>>) {
    b == Newest(a + newer, window)
  }

  lemma PushedTwice<T>(window: nat, a: seq<RootEntry<T>>, x: seq<RootEntry<T>>, b: seq<RootEntry<T>>,
                       y: seq<RootEntry<T>>, c: seq<RootEntry<T>>)
    requires Pushed(window, a, x, b) && Pushed(window, b, y, c)
    ensures Pushed(window, a, x + y, c)
  {
    NewestTwice(a + x, y, window);
    assert a + x + y == a + (x + y);
  }

  /** No context is lost, and each has grown. */
  ghost predicate AllGrew<T(!new)>(cfg: Config<T>, s: State<T>, s': State<T>, most: nat) {
    && s'.cache.current == s.cache.current
    && forall c {:trigger s.cache.contexts[c]} :: c in s.cache.contexts ==>
         c in s'.cache.contexts && Grew(cfg, s.cache.contexts[c], s'.cache.contexts[c], most)
  }

  lemma GrewNot<T(!new)>(cfg: Config<T>, c: Context<T>, most: nat)
    requires ContextOk(cfg, c)
    ensures Grew(cfg, c, c, most)
  {
    assert c.roots + [] == c.roots;
    assert Pushed(cfg.window, c.roots, [], c.roots);
  }

  lemma GrewByBuild<T(!new)>(cfg: Config<T>, c: Context<T>, members: seq<string>, ts: int)
    requires ContextOk(cfg, c) && c.members < members
    ensures Grew(cfg, c, Build(cfg, c.roots, members, ts), 1)
  {
    var e := RootEntry(|members|, cfg.rootOf(members), ts);
    UpdateOnTop(c.roots, e, cfg.window);
    assert Others(c.roots, e.height) == c.roots && |[e]| == 1;
    assert Pushed(cfg.window, c.roots, [e], Build(cfg, c.roots, members, ts).roots);
  }

  lemma PrefixTwice(a: seq<string>, b: seq<string>, c: seq<string>)
    requires a <= b <= c
    ensures a <= c
  {
  }

  lemma GrewTwice<T(!new)>(cfg: Config<T>, a: Context<T>, b: Context<T>, c: Context<T>, m: nat, n: nat)
    requires Grew(cfg, a, b, m) && Grew(cfg, b, c, n)
    ensures Grew(cfg, a, c, m + n)
  {
    hide Pushed;
    PrefixTwice(a.members, b.members, c.members);
    var x :| |x| <= m && |x| <= |b.members| - |a.members| && Pushed(cfg.window, a.roots, x, b.roots);
    var y :| |y| <= n && |y| <= |c.members| - |b.members| && Pushed(cfg.window, b.roots, y, c.roots);
    PushedTwice(cfg.window, a.roots, x, b.roots, y, c.roots);
    assert |x + y| <= m + n;
  }

  lemma AllGrewTwice<T(!new)>(cfg: Config<T>, a: State<T>, b: State<T>, c: State<T>, m: nat, n: nat)
    requires AllGrew(cfg, a, b, m) && AllGrew(cfg, b, c, n)
    ensures AllGrew(cfg, a, c, m + n)
  {
    forall k | k in a.cache.contexts
      ensures k in c.cache.contexts && Grew(cfg, a.cache.contexts[k], c.cache.contexts[k], m + n) {
      GrewTwice(cfg, a.cache.contexts[k], b.cache.contexts[k], c.cache.contexts[k], m, n);
    }
  }

  lemma NoneGrew<T(!new)>(cfg: Config<T>, s: State<T>, s': State<T>, most: nat)
    requires Inv(cfg, s) && s'.cache == s.cache
    ensures AllGrew(cfg, s, s', most)
  {
    forall k | k in s.cache.contexts ensures Grew(cfg, s.cache.contexts[k], s.cache.contexts[k], most) {
      GrewNot(cfg, s.cache.contexts[k], most);
    }
  }

  /** A context's first tree. */
  lemma NewContext<T(!new)>(cfg: Config<T>, s: State<T>, s': State<T>, context: string, c: Context<T>)
    requires Inv(cfg, s) && context !in s.cache.contexts
    requires s'.cache == s.cache.(contexts := s.cache.contexts[context := c])
    ensures AllGrew(cfg, s, s', 0)
  {
    forall k | k in s.cache.contexts ensures Grew(cfg, s.cache.contexts[k], s'.cache.contexts[k], 0) {
      GrewNot(cfg, s.cache.contexts[k], 0);
    }
  }

  /** One context is built, on its own window if it had one. */
  lemma OneGrew<T(!new)>(cfg: Config<T>, s: State<T>, s': State<T>, context: string, members: seq<string>, ts: int)
    requires Inv(cfg, s) && (context in s.cache.contexts ==> s.cache.contexts[context].members < members)
    requires var roots := if context in s.cache.contexts then s.cache.contexts[context].roots else [];
      s'.cache == s.cache.(contexts := s.cache.contexts[context := Build(cfg, roots, members, ts)])
    ensures AllGrew(cfg, s, s', 1)
  {
    forall k | k in s.cache.contexts ensures Grew(cfg, s.cache.contexts[k], s'.cache.contexts[k], 1) {
      if k == context {
        GrewByBuild(cfg, s.cache.contexts[k], members, ts);
      } else {
        GrewNot(cfg, s.cache.contexts[k], 1);
      }
    }
  }

  // ---- each operation ----------------------------------------------------------------------------------

  lemma MaterializeKeeps<T(!new)>(cfg: Config<T>, s: State<T>, context: string, ts: int)
    requires Inv(cfg, s) && s.cache.current.Some?
    ensures var members := Members(s.store.index, s.cache.current.value, context);
      var o := Materialize(cfg, s, context, members, ts);
      o.Done? && Inv(cfg, o.state) && Level(o.state, s.cache.current.value, context) && o.state.store == s.store
      && o.state.cache.current == s.cache.current
      && (context !in s.cache.contexts ==> AllGrew(cfg, s, o.state, 0))
  {
    var members := Members(s.store.index, s.cache.current.value, context);
    BuildIsOk(cfg, [], [], members, ts);
    PlaceKeeps(cfg, s, context, Build(cfg, [], members, ts));
    if context !in s.cache.contexts {
      NewContext(cfg, s, WithContext(s, context, Build(cfg, [], members, ts)), context, Build(cfg, [], members, ts));
    }
    assert |RecordsOf(s.store.index, Bucket(s.cache.current.value, context))| <= cfg.capacity;
  }

  /** What a rebuild leaves. */
  lemma RebuiltKeeps<T(!new)>(cfg: Config<T>, s: State<T>, season: int, context: string, ts: int)
    requires Inv(cfg, s) && s.cache.current == Some(season)
    requires SizeOf(s, context) < |Members(s.store.index, season, context)|
    ensures |Members(s.store.index, season, context)| <= cfg.capacity
    ensures var members := Members(s.store.index, season, context);
      var roots := if context in s.cache.contexts then s.cache.contexts[context].roots else [];
      var s' := WithContext(s, context, Build(cfg, roots, members, ts));
      Inv(cfg, s') && Level(s', season, context) && AllGrew(cfg, s, s', 1)
  {
    var members := Members(s.store.index, season, context);
    var roots, before := [], [];
    if context in s.cache.contexts {
      roots, before := s.cache.contexts[context].roots, s.cache.contexts[context].members;
    }
    BucketFits(cfg, s, season, context);
    BuildIsOk(cfg, roots, before, members, ts);
    PlaceKeeps(cfg, s, context, Build(cfg, roots, members, ts));
    OneGrew(cfg, s, WithContext(s, context, Build(cfg, roots, members, ts)), context, members, ts);
  }

  lemma BucketFits<T(!new)>(cfg: Config<T>, s: State<T>, season: int, context: string)
    requires Inv(cfg, s)
    ensures |Members(s.store.index, season, context)| <= cfg.capacity
  {
    assert |RecordsOf(s.store.index, Bucket(season, context))| <= cfg.capacity;
  }

  /** A tree that is not behind its records is level with them. */
  lemma NotBehind<T(!new)>(cfg: Config<T>, s: State<T>, season: int, context: string)
    requires Inv(cfg, s) && s.cache.current == Some(season)
    requires |Members(s.store.index, season, context)| <= SizeOf(s, context)
    ensures if context in s.cache.contexts then Level(s, season, context)
      else Members(s.store.index, season, context) == []
  {
  }

  /** A reconcile that returns leaves the tree level with the records, and never outgrows its capacity.
      However it ends, every root accepted is still accepted but for the oldest, when the window was full. */
  lemma ReconcileKeeps<T(!new)>(cfg: Config<T>, s: State<T>, season: int, context: string, read: Access, ts: int)
    requires Inv(cfg, s) && s.cache.current == Some(season)
    ensures var o := ReconcileIfBehind(cfg, s, season, context, read, ts);
      && Inv(cfg, o.state) && AllGrew(cfg, s, o.state, 1)
      && (o.Threw? <==> read.Throws?)
      && (o.Done? ==> o.state.store.uncertain.None?
                      && (context in s.cache.contexts ==> context in o.state.cache.contexts)
                      && (context in o.state.cache.contexts ==> Level(o.state, season, context)))
      && (o.Done? && context !in o.state.cache.contexts ==> Members(o.state.store.index, season, context) == [])
  {
    hide Inv, Grew, AllGrew, Members, Build, Settle;
    NoneGrew(cfg, s, s, 1);
    if read.Answers? {
      SettleKeeps(cfg, s, read.landed);
      var s' := s.(store := Settle(s.store, read.landed));
      NoneGrew(cfg, s, s', 0);
      NoneGrew(cfg, s, s', 1);
      if |Members(s'.store.index, season, context)| > SizeOf(s', context) {
        RebuiltKeeps(cfg, s', season, context, ts);
        AllGrewTwice(cfg, s, s', ReconcileIfBehind(cfg, s, season, context, read, ts).state, 0, 1);
      } else {
        NotBehind(cfg, s', season, context);
      }
    }
  }

  lemma RollKeeps<T(!new)>(cfg: Config<T>, s: State<T>, season: int)
    requires Inv(cfg, s)
    ensures Inv(cfg, Roll(cfg, s, season).state)
    ensures Roll(cfg, s, season).Done? ==> Roll(cfg, s, season).state.cache.current == Some(season)
    ensures Roll(cfg, s, season).Done? && s.cache.current != Some(season) ==>
      Roll(cfg, s, season).state.cache.contexts == map[]
    ensures Roll(cfg, s, season).Threw? || s.cache.current == Some(season) ==> Roll(cfg, s, season).state == s
    ensures cfg.monotonic && s.cache.current.Some? ==>
      Roll(cfg, s, season).state.cache.current.value >= s.cache.current.value
  {
  }

  /** What the first read of a context leaves: its tree level with its records, or no tree for none. */
  lemma EnsureContextKeeps<T(!new)>(cfg: Config<T>, s: State<T>, season: int, context: string, read: Access, ts: int)
    requires Inv(cfg, s)
    ensures var o := EnsureContext(cfg, s, season, context, read, ts);
      && Inv(cfg, o.state)
      && (o.state.cache.current == s.cache.current ==> AllGrew(cfg, s, o.state, 0))
      && (o.Done? ==>
            && o.state.cache.current == Some(season)
            && if s.cache.current == Some(season) && context in s.cache.contexts then o.state == s
               else if context in o.state.cache.contexts then Level(o.state, season, context)
               else Members(o.state.store.index, season, context) == [])
  {
    RollKeeps(cfg, s, season);
    var rolled := Roll(cfg, s, season);
    if rolled.Done? && read.Answers? {
      SettleKeeps(cfg, rolled.state, read.landed);
      MaterializeKeeps(cfg, rolled.state.(store := Settle(rolled.state.store, read.landed)), context, ts);
    }
    EnsureContextGrew(cfg, s, season, context, read, ts);
  }

  lemma EnsureContextGrew<T(!new)>(cfg: Config<T>, s: State<T>, season: int, context: string, read: Access, ts: int)
    requires Inv(cfg, s)
    ensures var o := EnsureContext(cfg, s, season, context, read, ts);
      o.state.cache.current == s.cache.current ==> AllGrew(cfg, s, o.state, 0)
  {
    hide Inv, Grew, AllGrew, Build, Members, Settle;
    NoneGrew(cfg, s, s, 0);
    if s.cache.current == Some(season) && read.Answers? {
      var s' := s.(store := Settle(s.store, read.landed));
      NoneGrew(cfg, s, s', 0);
      if context !in s.cache.contexts {
        var c := Build(cfg, [], Members(s'.store.index, season, context), ts);
        NewContext(cfg, s, WithContext(s', context, c), context, c);
      }
    }
  }

  lemma PrepareKeeps<T(!new)>(cfg: Config<T>, s: State<T>, season: int, context: string, m: Meets)
    requires Inv(cfg, s) && s.cache.current == Some(season)
    ensures var o := Prepare(cfg, s, season, context, m);
      && Inv(cfg, o.state) && AllGrew(cfg, s, o.state, 1)
      && (o.Done? ==> Level(o.state, season, context) && o.state.store.uncertain.None?)
  {
    hide Inv, Grew, AllGrew, Members, Build, Settle;
    NoneGrew(cfg, s, s, 1);
    if context in s.cache.contexts {
      ReconcileKeeps(cfg, s, season, context, m.reconcile, m.ts);
    } else if m.materialize.Answers? {
      SettleKeeps(cfg, s, m.materialize.landed);
      var s' := s.(store := Settle(s.store, m.materialize.landed));
      MaterializeKeeps(cfg, s', context, m.ts);
      var built := Materialize(cfg, s', context, Members(s'.store.index, season, context), m.ts);
      ReconcileKeeps(cfg, built.state, season, context, m.reconcile, m.ts);
      NoneGrew(cfg, s, s', 0);
      NoneGrew(cfg, s, s', 1);
      AllGrewTwice(cfg, s, s', built.state, 0, 0);
      AllGrewTwice(cfg, s, built.state, Prepare(cfg, s, season, context, m).state, 0, 1);
    }
  }

  lemma RememberBounded<T(!new)>(cfg: Config<T>, ix: Index, r: Record)
    requires Bounded(cfg, ix) && |RecordsOf(ix, BucketOf(r))| < cfg.capacity
    ensures Bounded(cfg, Remember(ix, r))
  {
    forall b ensures |RecordsOf(Remember(ix, r), b)| <= cfg.capacity {
      assert |RecordsOf(ix, b)| <= cfg.capacity;
    }
  }

  lemma NextPlace<T(!new)>(cfg: Config<T>, s: State<T>, context: string, r: Record)
    requires Inv(cfg, s) && s.cache.current == Some(r.season) && r.contextHash == context
    requires Level(s, r.season, context) && Appendable(s.store.index, r) && SizeOf(s, context) < cfg.capacity
    ensures r.index == SizeOf(s, context) && Bounded(cfg, Remember(s.store.index, r))
    ensures s.cache.contexts[context].members + [r.commitment] == Members(Remember(s.store.index, r), r.season, context)
  {
    DecisionSpelledOut(s.store.index, r);
    RememberBounded(cfg, s.store.index, r);
    MembersGrow(s.store.index, r, r.season, context);
  }

  lemma GrownKeeps<T(!new)>(cfg: Config<T>, s: State<T>, context: string, r: Record, ts: int)
    requires Inv(cfg, s) && s.cache.current == Some(r.season) && context in s.cache.contexts
    requires Bounded(cfg, Remember(s.store.index, r))
    requires s.cache.contexts[context].members + [r.commitment]
      == Members(Remember(s.store.index, r), r.season, context)
    ensures var c := s.cache.contexts[context];
      Inv(cfg, WithContext(s.(store := Store(Remember(s.store.index, r), None)), context,
                           Build(cfg, c.roots, c.members + [r.commitment], ts)))
  {
    var c := s.cache.contexts[context];
    GrowKeeps(cfg, s, r);
    BuiltOnTree(cfg, s, context, c.members + [r.commitment], ts);
    PlaceKeeps(cfg, s.(store := Store(Remember(s.store.index, r), None)), context,
        Build(cfg, c.roots, c.members + [r.commitment], ts));
  }

  /** The durable index is the tree's next position, so the two never disagree, and the tree with the
      record's commitment is the bucket with the record. */
  lemma MirrorKeeps<T(!new)>(cfg: Config<T>, s: State<T>, context: string, r: Record, ts: int)
    requires Inv(cfg, s) && s.cache.current == Some(r.season) && r.contextHash == context
    requires Level(s, r.season, context) && Appendable(s.store.index, r) && SizeOf(s, context) < cfg.capacity
    ensures r.index == SizeOf(s, context)
    ensures var o := Mirror(cfg, s, context, r, ts);
      && o.Done? && Inv(cfg, o.state) && Level(o.state, r.season, context) && o.state.cache.current == s.cache.current
      && o.state.store == Store(Remember(s.store.index, r), None)
      && o.answer == Committed(r.index, cfg.rootOf(Members(o.state.store.index, r.season, context)),
           SizeOf(s, context) + 1)
      && AllGrew(cfg, s, o.state, 1) && SizeOf(o.state, context) == SizeOf(s, context) + 1
  {
    hide Inv, Members, Remember, Appendable, Bounded, Updated, Grew;
    NextPlace(cfg, s, context, r);
    GrownKeeps(cfg, s, context, r, ts);
    OneGrew(cfg, s, Mirror(cfg, s, context, r, ts).state, context, s.cache.contexts[context].members + [r.commitment],
        ts);
  }

  lemma BuiltOnTree<T(!new)>(cfg: Config<T>, s: State<T>, context: string, members: seq<string>, ts: int)
    requires Inv(cfg, s) && context in s.cache.contexts && s.cache.contexts[context].members <= members
    ensures ContextOk(cfg, Build(cfg, s.cache.contexts[context].roots, members, ts))
  {
    BuildIsOk(cfg, s.cache.contexts[context].roots, s.cache.contexts[context].members, members, ts);
  }

  lemma GrowKeeps<T(!new)>(cfg: Config<T>, s: State<T>, r: Record)
    requires Inv(cfg, s) && Bounded(cfg, Remember(s.store.index, r))
    ensures Inv(cfg, s.(store := Store(Remember(s.store.index, r), None)))
  {
    forall k | k in s.cache.contexts
      ensures s.cache.contexts[k].members <= Members(Remember(s.store.index, r), s.cache.current.value, k) {
      MembersGrow(s.store.index, r, s.cache.current.value, k);
    }
  }

  /** What a commit that answers has made true. */
  ghost predicate Settled<T(!new)>(cfg: Config<T>, s: State<T>, context: string, d: Request, answer: Reply<T>) {
    && Level(s, d.season, context) && answer != IndexTreeMismatch
    && (answer.Committed? ==>
          && answer.root == cfg.rootOf(Members(s.store.index, d.season, context))
          && answer.size == SizeOf(s, context) == answer.index + 1
          && AtItsIndex(s.store.index, RecordFor(d, answer.index)))
  }

  lemma WriteKeeps<T(!new)>(cfg: Config<T>, s: State<T>, context: string, d: Request, m: Meets)
    requires Inv(cfg, s) && s.cache.current == Some(d.season) && d.contextHash == context
    requires Level(s, d.season, context) && s.store.uncertain.None? && SizeOf(s, context) < cfg.capacity
    ensures var o := WriteAndMirror(cfg, s, context, d, m);
      && Inv(cfg, o.state) && AllGrew(cfg, s, o.state, 1)
      && (o.Done? ==> Settled(cfg, o.state, context, d, o.answer))
  {
    hide Inv, Remember, Members, Bounded, AtItsIndex, Grew;
    NoneGrew(cfg, s, s, 1);
    var decision := Decide(s.store.index, d);
    if Admissible(d) && decision.Write? {
      assert Appendable(s.store.index, decision.record) && decision.record == RecordFor(d, decision.record.index);
      LandedKeeps(cfg, s, context, d, decision.record, m.ts);
    }
  }

  lemma LandedKeeps<T(!new)>(cfg: Config<T>, s: State<T>, context: string, d: Request, r: Record, ts: int)
    requires Inv(cfg, s) && s.cache.current == Some(d.season) && d.contextHash == context
    requires Level(s, d.season, context) && SizeOf(s, context) < cfg.capacity
    requires Appendable(s.store.index, r) && r.index >= 0 && r == RecordFor(d, r.index)
    ensures Inv(cfg, s.(store := Store(s.store.index, Some(r))))
    ensures var o := Mirror(cfg, s, context, r, ts);
      && o.Done? && Inv(cfg, o.state) && AllGrew(cfg, s, o.state, 1) && Settled(cfg, o.state, context, d, o.answer)
    ensures AllGrew(cfg, s, s.(store := Store(s.store.index, Some(r))), 1)
  {
    hide Inv, Grew, AllGrew, Members, Mirror, Bounded;
    NoneGrew(cfg, s, s.(store := Store(s.store.index, Some(r))), 1);
    StaysBounded(cfg, s, context, r);
    RememberPlaces(s.store.index, r, r);
    hide Remember, AtItsIndex, Appendable;
    MirrorKeeps(cfg, s, context, r, ts);
    UncertainKeeps(cfg, s, r);
  }

  lemma StaysBounded<T(!new)>(cfg: Config<T>, s: State<T>, context: string, r: Record)
    requires Inv(cfg, s) && r.contextHash == context && Level(s, r.season, context) && SizeOf(s, context) < cfg.capacity
    ensures Bounded(cfg, Remember(s.store.index, r))
  {
    assert |RecordsOf(s.store.index, BucketOf(r))| == SizeOf(s, context);
    assert Bounded(cfg, s.store.index);
    hide Inv, Bounded, Remember;
    RememberBounded(cfg, s.store.index, r);
  }

  lemma UncertainKeeps<T(!new)>(cfg: Config<T>, s: State<T>, r: Record)
    requires Inv(cfg, s) && Bounded(cfg, Remember(s.store.index, r))
    ensures Inv(cfg, s.(store := Store(s.store.index, Some(r))))
  {
  }

  /** A commit keeps the invariant however it ends, and pushes at most two roots into a window that keeps
      the rest; and if it answers while its season is current, the tree it leaves is exactly the durable
      bucket. The index-mismatch refusal cannot happen. */
  lemma CommitKeeps<T(!new)>(cfg: Config<T>, s: State<T>, context: string, d: Request, byNullifier: bool, m: Meets)
    requires Inv(cfg, s) && d.contextHash == context
    ensures var o := Commit(cfg, s, context, d, byNullifier, m);
      && Inv(cfg, o.state) && AllGrew(cfg, s, o.state, 2)
      && (o.Done? && s.cache.current == Some(d.season) ==> Settled(cfg, o.state, context, d, o.answer))
      && (o.Done? && s.cache.current != Some(d.season) ==> o.answer == SeasonRolled)
  {
    hide Inv, AtItsIndex, WriteAndMirror, Prepare, Members, Grew;
    NoneGrew(cfg, s, s, 2);
    if s.cache.current == Some(d.season) {
      PrepareKeeps(cfg, s, d.season, context, m);
      var ready := Prepare(cfg, s, d.season, context, m);
      NoneGrew(cfg, ready.state, ready.state, 1);
      AllGrewTwice(cfg, s, ready.state, ready.state, 1, 1);
      if ready.Done? && Refusal(cfg, ready.state, d.season, context, d, byNullifier, m).None? {
        WriteKeeps(cfg, ready.state, context, d, m);
        AllGrewTwice(cfg, s, ready.state, WriteAndMirror(cfg, ready.state, context, d, m).state, 1, 1);
      }
    }
  }

  /** A recovery that returns with its season current has put every stranded member back. */
  lemma RecoverKeeps<T(!new)>(cfg: Config<T>, s: State<T>, season: int, context: string, read: Access, ts: int)
    requires Inv(cfg, s)
    ensures var o := RecoverMember(cfg, s, season, context, read, ts);
      && Inv(cfg, o.state) && AllGrew(cfg, s, o.state, 1)
      && (o.Done? && s.cache.current == Some(season) ==>
            Level(o.state, season, context)
            || (context !in o.state.cache.contexts && Members(o.state.store.index, season, context) == []))
  {
    hide Inv, Grew, AllGrew, Members, ReconcileIfBehind;
    NoneGrew(cfg, s, s, 1);
    if s.cache.current == Some(season) { ReconcileKeeps(cfg, s, season, context, read, ts); }
  }

  // ---- every run -------------------------------------------------------------------------------------

  datatype Event =
    | DoEnsure(season: int)
    | DoEnsureContext(season: int, context: string, read: Access, ts: int)
    | DoRecover(season: int, context: string, read: Access, ts: int)
    | DoCommit(d: Request, byNullifier: bool, meets: Meets)
    | StoreRead(landed: bool)        // any other reader of the store
    | Restart

  function Step<T>(cfg: Config<T>, s: State<T>, e: Event): State<T> {
    match e
    case DoEnsure(season) => Ensure(cfg, s, season).state
    case DoEnsureContext(season, context, read, ts) => EnsureContext(cfg, s, season, context, read, ts).state
    case DoRecover(season, context, read, ts) => RecoverMember(cfg, s, season, context, read, ts).state
    case DoCommit(d, byNullifier, m) => Commit(cfg, s, d.contextHash, d, byNullifier, m).state
    case StoreRead(landed) => s.(store := Settle(s.store, landed))
    case Restart => s.(cache := Cache(None, map[]))
  }

  function Run<T>(cfg: Config<T>, s: State<T>, events: seq<Event>): State<T> {
    if |events| == 0 then s else Step(cfg, Run(cfg, s, events[..|events| - 1]), events[|events| - 1])
  }

  lemma StepKeeps<T(!new)>(cfg: Config<T>, s: State<T>, e: Event)
    requires Inv(cfg, s)
    ensures Inv(cfg, Step(cfg, s, e))
  {
    match e
    case DoEnsure(season) => RollKeeps(cfg, s, season);
    case DoEnsureContext(season, context, read, ts) => EnsureContextKeeps(cfg, s, season, context, read, ts);
    case DoRecover(season, context, read, ts) => RecoverKeeps(cfg, s, season, context, read, ts);
    case DoCommit(d, byNullifier, m) => CommitKeeps(cfg, s, d.contextHash, d, byNullifier, m);
    case StoreRead(landed) => SettleKeeps(cfg, s, landed);
    case Restart =>
  }

  /** While the season stays, so does every context. */
  lemma StepGrew<T(!new)>(cfg: Config<T>, s: State<T>, e: Event)
    requires Inv(cfg, s) && s.cache.current.Some? && Step(cfg, s, e).cache.current == s.cache.current
    ensures AllGrew(cfg, s, Step(cfg, s, e), 2)
  {
    hide Inv, Grew, AllGrew, Commit, EnsureContext, RecoverMember, Settle;
    NoneGrew(cfg, s, s, 2);
    match e
    case DoEnsure(season) =>
    case DoEnsureContext(season, context, read, ts) =>
      EnsureContextKeeps(cfg, s, season, context, read, ts);
      GrewAtMost(cfg, s, Step(cfg, s, e), 0);
    case DoRecover(season, context, read, ts) =>
      RecoverKeeps(cfg, s, season, context, read, ts);
      GrewAtMost(cfg, s, Step(cfg, s, e), 1);
    case DoCommit(d, byNullifier, m) => CommitKeeps(cfg, s, d.contextHash, d, byNullifier, m);
    case StoreRead(landed) => NoneGrew(cfg, s, Step(cfg, s, e), 2);
    case Restart =>
  }

  lemma GrewAtMost<T(!new)>(cfg: Config<T>, s: State<T>, s': State<T>, most: nat)
    requires AllGrew(cfg, s, s', most) && most <= 2
    ensures AllGrew(cfg, s, s', 2)
  {
    forall k | k in s.cache.contexts ensures Grew(cfg, s.cache.contexts[k], s'.cache.contexts[k], 2) {
      assert Grew(cfg, s.cache.contexts[k], s'.cache.contexts[k], most);
    }
  }

  /** The season is the same after every event. */
  ghost predicate SameSeason<T>(cfg: Config<T>, s: State<T>, events: seq<Event>) {
    s.cache.current.Some? && forall k :: 0 <= k <= |events| ==>
        Run(cfg, s, events[..k]).cache.current == s.cache.current
  }

  lemma {:induction false} RunGrew<T(!new)>(cfg: Config<T>, s: State<T>, events: seq<Event>)
    requires Inv(cfg, s) && SameSeason(cfg, s, events)
    ensures Inv(cfg, Run(cfg, s, events)) && AllGrew(cfg, s, Run(cfg, s, events), 2 * |events|)
  {
    hide Inv, Grew, Step, AllGrew;
    if |events| == 0 {
      NoneGrew(cfg, s, s, 0);
    } else {
      var front, last := events[..|events| - 1], events[|events| - 1];
      assert events[..|events|] == events;
      assert forall k :: 0 <= k <= |front| ==> front[..k] == events[..k];
      RunGrew(cfg, s, front);
      StepKeeps(cfg, Run(cfg, s, front), last);
      StepGrew(cfg, Run(cfg, s, front), last);
      AllGrewTwice(cfg, s, Run(cfg, s, front), Run(cfg, s, events), 2 * |front|, 2);
    }
  }

  /** A root once accepted outlives every rebuild and commit of its season: it is still accepted unless as
      many members have joined since as the window has places for after it. */
  lemma AcceptedRootOutlives<T(!new)>(cfg: Config<T>, s: State<T>, events: seq<Event>, context: string, i: nat)
    requires Inv(cfg, s) && SameSeason(cfg, s, events)
    requires context in s.cache.contexts && i < |s.cache.contexts[context].roots|
    ensures var s' := Run(cfg, s, events);
      && context in s'.cache.contexts
      && var c, c' := s.cache.contexts[context], s'.cache.contexts[context];
         && c.members <= c'.members
         && (cfg.window == 0 || |c.roots| - i + |c'.members| - |c.members| <= cfg.window ==> c.roots[i] in c'.roots)
  {
    hide Inv, Run, Grew;
    RunGrew(cfg, s, events);
    StillAccepted(cfg, s.cache.contexts[context], Run(cfg, s, events).cache.contexts[context], 2 * |events|, i);
  }

  lemma PushedKeeps<T(!new)>(window: nat, a: seq<RootEntry<T>>, newer: seq<RootEntry<T>>, b: seq<RootEntry<T>>, i: nat)
    requires Pushed(window, a, newer, b) && i < |a| && (window == 0 || |a| - i + |newer| <= window)
    ensures a[i] in b
  {
    assert (a + newer)[i] == a[i];
    NewestHas(a + newer, window, i);
  }

  lemma StillAccepted<T(!new)>(cfg: Config<T>, c: Context<T>, c': Context<T>, most: nat, i: nat)
    requires Grew(cfg, c, c', most) && i < |c.roots|
    ensures c.members <= c'.members
    ensures cfg.window == 0 || |c.roots| - i + |c'.members| - |c.members| <= cfg.window ==> c.roots[i] in c'.roots
  {
    var newer :| |newer| <= |c'.members| - |c.members| && Pushed(cfg.window, c.roots, newer, c'.roots);
    if cfg.window == 0 || |c.roots| - i + |c'.members| - |c.members| <= cfg.window {
      PushedKeeps(cfg.window, c.roots, newer, c'.roots, i);
    }
  }

  /** A process starting over a log whose buckets fit their trees. */
  function Start<T>(ix: Index): State<T> {
    State(Cache(None, map[]), Store(ix, None))
  }

  lemma {:induction false} RunKeeps<T(!new)>(cfg: Config<T>, ix: Index, events: seq<Event>)
    requires Bounded(cfg, ix)
    ensures Inv(cfg, Run(cfg, Start(ix), events))
  {
    if |events| > 0 {
      RunKeeps(cfg, ix, events[..|events| - 1]);
      StepKeeps(cfg, Run(cfg, Start(ix), events[..|events| - 1]), events[|events| - 1]);
    }
  }

  /** Over every run: a cached tree is a prefix of the durable bucket of the current season, the newest root
      its window accepts is the tree's own, and no bucket outgrows a tree. */
  lemma TreesArePrefixes<T(!new)>(cfg: Config<T>, ix: Index, events: seq<Event>, context: string, b: Bucket)
    requires Bounded(cfg, ix)
    ensures var s := Run(cfg, Start(ix), events);
      && |RecordsOf(s.store.index, b)| <= cfg.capacity
      && (context in s.cache.contexts ==>
            && s.cache.current.Some?
            && var c := s.cache.contexts[context];
               && c.members <= Members(s.store.index, s.cache.current.value, context)
               && |c.roots| > 0 && c.roots[|c.roots| - 1].root == cfg.rootOf(c.members))
  {
    hide Inv, Run;
    RunKeeps(cfg, ix, events);
    PrefixesOf(cfg, Run(cfg, Start(ix), events), context, b);
  }

  lemma PrefixesOf<T(!new)>(cfg: Config<T>, s: State<T>, context: string, b: Bucket)
    requires Inv(cfg, s)
    ensures |RecordsOf(s.store.index, b)| <= cfg.capacity
    ensures context in s.cache.contexts ==>
      && s.cache.current.Some?
      && var c := s.cache.contexts[context];
         && c.members <= Members(s.store.index, s.cache.current.value, context)
         && |c.roots| > 0 && c.roots[|c.roots| - 1].root == cfg.rootOf(c.members)
  {
    hide Members, RecordsOf;
    if context in s.cache.contexts {
      var c := s.cache.contexts[context];
      assert c.members[..|c.members|] == c.members;
    }
  }

  /** And every root it accepts, however old, is the root of a prefix of that bucket. */
  lemma AcceptedRootsArePrefixRoots<T(!new)>(cfg: Config<T>, ix: Index, events: seq<Event>, context: string, i: nat)
    returns (k: nat)
    requires Bounded(cfg, ix)
    requires var s := Run(cfg, Start(ix), events); context in s.cache.contexts && i < |s.cache.contexts[context].roots|
    ensures var s := Run(cfg, Start(ix), events);
      && s.cache.current.Some?
      && var durable := Members(s.store.index, s.cache.current.value, context);
         k <= |durable| && s.cache.contexts[context].roots[i].root == cfg.rootOf(durable[..k])
  {
    RunKeeps(cfg, ix, events);
    var s := Run(cfg, Start(ix), events);
    var c := s.cache.contexts[context];
    k := c.roots[i].height;
    assert c.members[..k] == Members(s.store.index, s.cache.current.value, context)[..k];
  }
}
