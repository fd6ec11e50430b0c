/**
  The season manager as the object it is (core/season.js): per context a tree object updated in place and
  the window of roots it has published, replaced, cleared and appended to step by step. Each method is
  proved to do what `Season` says and to leave every tree's own root the root of its members.
 */
module SeasonMembers {
  import opened FieldElements
  import opened PaddedTree
  import opened RegistrationLog
  import opened Season
  import opened Wrappers
  import MT = MembersTree
  import RS = RootStore

  /** The field's own conversion accepts every canonical element. */
  ghost predicate Converts<T>(field: string -> Option<T>) {
    forall s: string {:trigger field(s)} :: IsCanonicalField(s) ==> field(s).Some?
  }

  /** The padded root over these commitments; z stands in for lists no tree is ever built over. */
  function TreeRoot<T>(h: (T, T) -> T, z: T, field: string -> Option<T>, depth: nat): seq<string> -> T {
    (cs: seq<string>) => if MT.AllConvert(field, cs) then Root(h, z, MT.Leaves(field, cs), depth) else z
  }

  function ConfigFor<T>(h: (T, T) -> T, z: T, field: string -> Option<T>, depth: nat, window: nat,
                        monotonic: bool): Season.Config<T> {
    Season.Config.Config(TreeRoot(h, z, field, depth), Pow2(depth), window, monotonic)
  }

  /** Every durable commitment is one a tree can take. */
  lemma DurableMembersConvert<T>(field: string -> Option<T>, ix: Index, season: int, context: string)
    requires Converts(field) && Coherent(ix)
    ensures MT.AllConvert(field, Members(ix, season, context))
  {
    var b := Bucket(season, context);
    var members := Members(ix, season, context);
    forall i | 0 <= i < |members| ensures field(members[i]).Some? {
      assert BucketOk(b, ix.byBucket[b]) && Usable(ix.byBucket[b][i]);
    }
  }

  lemma Decided(ix: Index, d: Request)
    requires Coherent(ix) && Admissible(d) && Decide(ix, d).Write?
    ensures var r := Decide(ix, d).record;
      Appendable(ix, r) && r.index >= 0 && IsCanonicalField(r.commitment) && Coherent(Remember(ix, r))
  {
    RememberCoherent(ix, Decide(ix, d).record);
  }

  /** What a context is kept as: its tree, and the roots published for it. */
  datatype Held<!T(==, !new)> = Held(tree: MT.MembersTree<T>, roots: RS.RootStore<T>)

  ghost function Objects<T(!new)>(c: Held<T>): set<object> {
    {c.tree, c.tree.frontier, c.roots}
  }

  ghost predicate Apart<T(!new)>(a: Held<T>, b: Held<T>) {
    a.tree != b.tree && a.tree.frontier != b.tree.frontier && a.roots != b.roots
  }

  ghost predicate ApartFromAll<T(!new)>(held: map<string, Held<T>>, k: string, c: Held<T>) {
    forall d :: d in held && d != k ==> Apart(held[d], c) && Apart(c, held[d])
  }

  /** Each context has its own objects, all of them in repr. */
  ghost predicate Owned<T(!new)>(held: map<string, Held<T>>, repr: set<object>) {
    && (forall c :: c in held ==> Objects(held[c]) <= repr)
    && (forall c :: c in held ==> ApartFromAll(held, c, held[c]))
  }

  /** A first read is a roll and then a first read in that season. */
  lemma RolledFirst<T(!new)>(cfg: Season.Config<T>, s: State<T>, season: int, context: string, read: Access, ts: int)
    ensures var rolled, o := Roll(cfg, s, season), EnsureContext(cfg, s, season, context, read, ts);
      && (rolled.Threw? || context in rolled.state.cache.contexts ==> o == rolled)
      && (rolled.Done? ==> o == EnsureContext(cfg, rolled.state, season, context, read, ts))
  {
  }

  lemma OwnedMore<T(!new)>(held: map<string, Held<T>>, repr: set<object>, k: string, c: Held<T>)
    requires Owned(held, repr) && ApartFromAll(held, k, c)
    ensures Owned(held[k := c], repr + Objects(c))
  {
    hide Apart;
    var more := held[k := c];
    forall d | d in more ensures ApartFromAll(more, d, more[d]) {
      if d != k { assert ApartFromAll(held, d, held[d]); }
    }
  }

  class SeasonMembers<T(==, !new)> {
    const h: (T, T) -> T
    const z: T
    const field: string -> Option<T>
    const depth: nat
    const cfg: Season.Config<T>
    var current: Option<int>
    var ctx: map<string, Held<T>>
    var store: Store
    ghost var cache: Cache<T>     // what current and ctx amount to
    ghost var Repr: set<object>

    /** A context's objects agree with the manager's parameters and are what the cache says. */
    ghost predicate HeldOk(c: Held<T>, shown: Context<T>)
      reads c.tree, c.tree.frontier, c.roots
    {
      && c.tree.Valid() && c.roots.Valid() && c.roots.window == cfg.window
      && c.tree.h == h && c.tree.z == z && c.tree.field == field && c.tree.depth == depth
      && shown == Context(c.tree.commitments, c.roots.roots)
    }

    /** Every context held, but perhaps one, is what the cache shows. */
    ghost predicate AllHeld(held: map<string, Held<T>>, shown: map<string, Context<T>>, repr: set<object>,
                            but: Option<string>)
      requires Owned(held, repr)
      reads repr
    {
      shown.Keys == held.Keys && forall c :: c in held && but != Some(c) ==> HeldOk(held[c], shown[c])
    }

    lemma HeldMore(held: map<string, Held<T>>, shown: map<string, Context<T>>, repr: set<object>, k: string,
                   c: Held<T>, x: Context<T>)
      requires Owned(held, repr) && AllHeld(held, shown, repr, Some(k)) && HeldOk(c, x) && ApartFromAll(held, k, c)
      ensures Owned(held[k := c], repr + Objects(c)) && AllHeld(held[k := c], shown[k := x], repr + Objects(c), None)
    {
      hide HeldOk;
      OwnedMore(held, repr, k, c);
    }

    ghost predicate Parameters() {
      && Converts(field) && cfg.rootOf == TreeRoot(h, z, field, depth) && cfg.capacity == Pow2(depth)
    }

    ghost predicate SoundBut(context: Option<string>)
      reads this`ctx, this`cache, this`current, this`Repr, Repr
    {
      && Parameters() && this !in Repr && Owned(ctx, Repr) && cache.current == current
      && AllHeld(ctx, cache.contexts, Repr, context)
    }

    ghost predicate Sound()
      reads this`ctx, this`cache, this`current, this`Repr, Repr
    {
      SoundBut(None)
    }

    ghost function View(): State<T>
      reads this
    {
      State(cache, store)
    }

    ghost predicate Valid()
      reads this, Repr
    {
      Sound() && Inv(cfg, View()) && StoreCoherent(store)
    }

    constructor (h: (T, T) -> T, z: T, field: string -> Option<T>, depth: nat, window: nat, monotonic: bool,
                 store: Store)
      requires Converts(field) && StoreCoherent(store)
      requires StoreOk(ConfigFor(h, z, field, depth, window, monotonic), store)
      ensures Valid() && View() == State(Cache(None, map[]), store)
        && cfg == ConfigFor(h, z, field, depth, window, monotonic)
      ensures this.h == h && this.z == z && this.field == field && this.depth == depth
    {
      this.h, this.z, this.field, this.depth := h, z, field, depth;
      cfg := ConfigFor(h, z, field, depth, window, monotonic);
      current, ctx, cache, Repr := None, map[], Cache(None, map[]), {};
      this.store := store;
    }

    /** A tree's own root, however it came to be built, is the root of its members. */
    lemma RootIsOfMembers(c: Held<T>)
      requires Parameters() && c.tree.Valid() && c.tree.h == h && c.tree.z == z && c.tree.field == field
        && c.tree.depth == depth
      ensures c.tree.root == cfg.rootOf(c.tree.commitments)
    {
    }

    method RollTo(season: int) returns (threw: bool)
      requires Valid()
      modifies this
      ensures Valid() && View() == Roll(cfg, old(View()), season).state
        && threw == Roll(cfg, old(View()), season).Threw?
      ensures !threw ==> current == Some(season) && (old(current) != Some(season) ==> ctx == map[])
      ensures store == old(store) && Repr <= old(Repr) && (ctx == old(ctx) || ctx == map[])
    {
      RollKeeps(cfg, View(), season);
      if cfg.monotonic && current.Some? && season < current.value { return true; }
      if current != Some(season) {
        ctx, Repr := map[], {};
        current := Some(season);
        cache := Cache(current, map[]);
      }
      threw := false;
    }

    /** One read of the store: none when it throws. */
    method ForSeasonContext(season: int, context: string, read: Access) returns (members: Option<seq<string>>)
      requires StoreCoherent(store) && Converts(field)
      modifies this`store
      ensures members.None? == read.Throws? && StoreCoherent(store)
      ensures store == if read.Throws? then old(store) else Settle(old(store), read.landed)
      ensures members.Some? ==>
        members.value == Members(store.index, season, context) && MT.AllConvert(field, members.value)
    {
      if read.Throws? { return None; }
      SettleCoherent(store, read.landed);
      store := Settle(store, read.landed);
      DurableMembersConvert(field, store.index, season, context);
      members := Some(Members(store.index, season, context));
    }

    /** A new tree over these members, published to the window given, or to a new one; none when there are
        more of them than a tree can hold. The window is the same object: who holds it sees the new root. */
    method Materialize(members: seq<string>, ts: int, kept: Option<RS.RootStore<T>>) returns (c: Option<Held<T>>)
      requires Parameters() && MT.AllConvert(field, members)
      requires kept.Some? ==> kept.value.Valid() && kept.value.window == cfg.window
      modifies if kept.Some? then {kept.value} else {}
      ensures c.None? <==> |members| > cfg.capacity
      ensures c.None? && kept.Some? ==> unchanged(kept.value)
      ensures c.Some? ==>
        && fresh(c.value.tree) && fresh(c.value.tree.frontier)
        && (if kept.Some? then c.value.roots == kept.value else fresh(c.value.roots))
        && HeldOk(c.value, Build(cfg, if kept.Some? then old(kept.value.roots) else [], members, ts))
    {
      var built := MT.MembersTree<T>.FromCommitments(h, z, field, depth, members);
      if built.Err? { return None; }
      var tree := built.value;
      var roots: RS.RootStore<T>;
      if kept.Some? { roots := kept.value; } else { roots := new RS.RootStore<T>(cfg.window); }
      RootIsOfMembers(Held(tree, roots));
      roots.Update([RS.RootEntry(|members|, tree.root, ts)]);
      c := Some(Held(tree, roots));
    }

    /** ctx.set. */
    method Place(context: string, c: Held<T>, ghost shown: Context<T>)
      requires SoundBut(Some(context)) && HeldOk(c, shown) && this !in Objects(c) && ApartFromAll(ctx, context, c)
      modifies this`ctx, this`cache, this`Repr
      ensures Sound() && ctx == old(ctx)[context := c] && Repr == old(Repr) + Objects(c)
      ensures cache == old(cache).(contexts := old(cache).contexts[context := shown])
    {
      hide HeldOk, Owned, AllHeld, Objects, ApartFromAll;
      HeldMore(ctx, cache.contexts, Repr, context, c, shown);
      ctx := ctx[context := c];
      cache := cache.(contexts := cache.contexts[context := shown]);
      Repr := Repr + Objects(c);
    }

    ghost function RootsOf(context: string): seq<RS.RootEntry<T>>
      reads this
    {
      if context in cache.contexts then cache.contexts[context].roots else []
    }

    /** The objects a context is about to be held as: a new tree, and the context's own window if it has one. */
    method MaterializeFor(context: string, members: seq<string>, ts: int) returns (c: Option<Held<T>>)
      requires Sound() && MT.AllConvert(field, members)
      modifies if context in ctx then {ctx[context].roots} else {}
      ensures c.None? <==> |members| > cfg.capacity
      ensures if c.None? then Sound() else SoundBut(Some(context))
      ensures c.Some? ==>
        && HeldOk(c.value, Build(cfg, RootsOf(context), members, ts)) && ApartFromAll(ctx, context, c.value)
        && this !in Objects(c.value)
        && fresh(c.value.tree) && fresh(c.value.tree.frontier) && (context !in ctx ==> fresh(c.value.roots))
        && (context in ctx ==> c.value.roots == ctx[context].roots)
    {
      hide Build, HeldOk, Converts, MT.AllConvert;
      ghost var before := RootsOf(context);
      WindowOf(context);
      var kept := if context in ctx then Some(ctx[context].roots) else None;
      c := Materialize(members, ts, kept);
      assert c.Some? ==> HeldOk(c.value, Build(cfg, before, members, ts));
      if c.Some? { StillSound(context); }
    }

    lemma WindowOf(context: string)
      requires Sound()
      ensures context in ctx ==>
        ctx[context].roots.Valid() && ctx[context].roots.window == cfg.window
            && RootsOf(context) == ctx[context].roots.roots
    {
      assert context in ctx ==> HeldOk(ctx[context], cache.contexts[context]);
    }

    /** Only a context's own objects have changed. */
    twostate lemma StillSound(context: string)
      requires old(Sound()) && unchanged(this)
      requires forall o: object :: o in Repr && (context in ctx ==> o !in Objects(ctx[context])) ==> unchanged(o)
      ensures SoundBut(Some(context))
    {
      hide HeldOk;
    }

    /** The tree object's own root is the padded root of the durable bucket. */
    ghost predicate ServesBucket(season: int, context: string)
      requires Owned(ctx, Repr)
      reads this, Repr
    {
      && context in ctx && MT.AllConvert(field, Members(store.index, season, context))
      && ctx[context].tree.root == Root(h, z, MT.Leaves(field, Members(store.index, season, context)), depth)
    }

    /** A tree level with its records has the root a rebuild from them would. */
    lemma LevelRoot(season: int, context: string)
      requires Valid() && (context in cache.contexts ==> Level(View(), season, context))
      ensures context in ctx ==> Level(View(), season, context) && ServesBucket(season, context)
    {
      assert context in ctx ==> HeldOk(ctx[context], cache.contexts[context]);
      hide Inv, Members;
    }

    /** No window object is replaced, and no other context touched. */
    ghost predicate SameWindows(context: string, before: map<string, Held<T>>, after: map<string, Held<T>>) {
      && (context in before ==> context in after && after[context].roots == before[context].roots)
      && (forall d :: d in before && d != context ==> d in after && after[d] == before[d])
      && (forall d :: d in after && d != context ==> d in before)
    }

    /** A context's objects are its own old ones or new ones. */
    twostate predicate Renewed(context: string)
      reads this`ctx
    {
      && context in ctx
      && ((context in old(ctx) && ctx[context].tree == old(ctx)[context].tree)
          || (fresh(ctx[context].tree) && fresh(ctx[context].tree.frontier)))
      && ((context in old(ctx) && ctx[context].roots == old(ctx)[context].roots) || fresh(ctx[context].roots))
    }

    /** And no other context has others than it had. */
    twostate predicate OnlyRenewed(context: string)
      reads this`ctx
    {
      && (context in ctx ==> Renewed(context))
      && forall d :: d in ctx && d != context ==> d in old(ctx) && ctx[d] == old(ctx)[d]
    }

    twostate lemma RenewedIsItsOwn(context: string)
      requires OnlyRenewed(context)
      ensures HoldsItsOwn(old(ctx), ctx)
    {
      forall o | o in AllObjects(ctx) ensures o in AllObjects(old(ctx)) || fresh(o) {
        var c :| c in ctx && o in Objects(ctx[c]);
        if c in old(ctx) {
          assert forall x :: x in Objects(old(ctx)[c]) ==> x in AllObjects(old(ctx));
        }
      }
    }

    lemma SoundFacts(context: string)
      requires Sound()
      ensures this !in Repr && Converts(field) && cache.current == current && cache.contexts.Keys == ctx.Keys
      ensures cfg.capacity == Pow2(depth) && SameWindows(context, ctx, ctx)
    {
    }

    lemma ConfigIs()
      requires Sound()
      ensures cfg == ConfigFor(h, z, field, depth, cfg.window, cfg.monotonic) && Converts(field)
    {
    }

    lemma ShownAre(context: string)
      requires Sound() && context in ctx
      ensures cache.current == current && context in cache.contexts
        && cache.contexts[context].members == ctx[context].tree.commitments
    {
      assert HeldOk(ctx[context], cache.contexts[context]);
    }

    lemma SizeAgrees(context: string)
      requires Sound()
      ensures Size(context) == SizeOf(View(), context)
    {
      assert context in ctx ==> HeldOk(ctx[context], cache.contexts[context]);
    }

    /** How many members the context's tree holds. */
    function Size(context: string): nat
      reads this, if context in ctx then {ctx[context].tree} else {}
    {
      if context in ctx then |ctx[context].tree.commitments| else 0
    }

    /** A new tree in the context's place. */
    method RebuildPreservingRoots(context: string, members: seq<string>, ts: int) returns (threw: bool)
      requires Sound() && MT.AllConvert(field, members)
      modifies this`ctx, this`cache, this`Repr, if context in ctx then {ctx[context].roots} else {}
      ensures Sound() && threw == (|members| > cfg.capacity)
      ensures View() == if threw then old(View())
        else WithContext(old(View()), context, Build(cfg, old(RootsOf(context)), members, ts))
      ensures SameWindows(context, old(ctx), ctx) && (threw ==> ctx == old(ctx))
      ensures !threw ==> context in ctx && fresh(ctx[context].tree) && fresh(ctx[context].tree.frontier)
      ensures !threw && context !in old(ctx) ==> fresh(ctx[context].roots)
    {
      hide Build, HeldOk, Sound, SoundBut, Owned, AllHeld, ApartFromAll, Objects, RootsOf;
      var c := MaterializeFor(context, members, ts);
      if c.None? { return true; }
      Place(context, c.value, Build(cfg, RootsOf(context), members, ts));
      threw := false;
    }

    /** Behind is holding fewer members than the records: a commit only ever appends. */
    method RebuildUpTo(context: string, members: seq<string>, ts: int) returns (threw: bool, rebuilt: bool)
      requires Sound() && MT.AllConvert(field, members)
      modifies this`ctx, this`cache, this`Repr, if context in ctx then {ctx[context].roots} else {}
      ensures Sound()
      ensures View() == if rebuilt
        then WithContext(old(View()), context, Build(cfg, old(RootsOf(context)), members, ts)) else old(View())
      ensures rebuilt == (SizeOf(old(View()), context) < |members| <= cfg.capacity)
      ensures threw == (|members| > cfg.capacity && |members| > SizeOf(old(View()), context))
      ensures SameWindows(context, old(ctx), ctx) && (!rebuilt ==> ctx == old(ctx))
      ensures rebuilt ==> context in ctx && fresh(ctx[context].tree) && fresh(ctx[context].tree.frontier)
      ensures rebuilt && context !in old(ctx) ==> fresh(ctx[context].roots)
    {
      hide Build, HeldOk, Sound, SoundBut, Objects, Owned, SameWindows;
      SoundFacts(context);
      SizeAgrees(context);
      threw, rebuilt := false, false;
      if |members| > Size(context) {
        threw := RebuildPreservingRoots(context, members, ts);
        rebuilt := !threw;
      }
    }

    /** The read, and the rebuild it calls for. */
    method ReadAndRebuild(season: int, context: string, read: Access, ts: int) returns (threw: bool, rebuilt: bool)
      requires Sound() && StoreCoherent(store) && Converts(field)
      modifies this`ctx, this`cache, this`Repr, this`store, if context in ctx then {ctx[context].roots} else {}
      ensures Sound() && StoreCoherent(store)
      ensures var o := ReconcileIfBehind(cfg, old(View()), season, context, read, ts);
        View() == o.state && threw == o.Threw? && (o.Done? ==> rebuilt == o.answer)
      ensures SameWindows(context, old(ctx), ctx) && (!rebuilt ==> ctx == old(ctx))
      ensures rebuilt ==> context in ctx && fresh(ctx[context].tree) && fresh(ctx[context].tree.frontier)
      ensures rebuilt && context !in old(ctx) ==> fresh(ctx[context].roots)
    {
      hide Build, Members, Settle, HeldOk, Sound, WithContext, SameWindows, StoreCoherent, Converts;
      SoundFacts(context);
      var members := ForSeasonContext(season, context, read);
      if members.None? { return true, false; }
      threw, rebuilt := RebuildUpTo(context, members.value, ts);
    }

    /** A tree behind its records is replaced by one that has them all, publishing to the same window: what
        was accepted stays accepted, in the object whoever took it still holds. */
    method RebuildIfBehind(season: int, context: string, read: Access, ts: int) returns (threw: bool, rebuilt: bool)
      requires Valid() && current == Some(season)
      modifies this`ctx, this`cache, this`Repr, this`store, if context in ctx then {ctx[context].roots} else {}
      ensures Valid()
      ensures var o := ReconcileIfBehind(cfg, old(View()), season, context, read, ts);
        View() == o.state && threw == o.Threw? && (o.Done? ==> rebuilt == o.answer)
      ensures !threw && context in ctx ==> Level(View(), season, context) && ServesBucket(season, context)
      ensures SameWindows(context, old(ctx), ctx) && (!rebuilt ==> ctx == old(ctx))
      ensures rebuilt ==> context in ctx && fresh(ctx[context].tree) && fresh(ctx[context].tree.frontier)
      ensures rebuilt && context !in old(ctx) ==> fresh(ctx[context].roots)
    {
      hide Inv, ReconcileIfBehind, Sound, Level, AllGrew, SameWindows, Owned, StoreCoherent, ServesBucket, Converts,
          Members;
      SoundFacts(context);
      ReconcileKeeps(cfg, View(), season, context, read, ts);
      threw, rebuilt := ReadAndRebuild(season, context, read, ts);
      if !threw { LevelRoot(season, context); }
    }

    /** The first tree of a context that has records and none. */
    method DoEnsureContext(season: int, context: string, read: Access, ts: int) returns (threw: bool)
      requires Valid()
      modifies this
      ensures Valid()
      ensures var o := EnsureContext(cfg, old(View()), season, context, read, ts);
        View() == o.state && threw == o.Threw?
      ensures !threw && context in ctx && context !in old(ctx) ==>
        Level(View(), season, context) && ServesBucket(season, context)
      ensures OnlyRenewed(context)
    {
      hide Inv, EnsureContext, HeldOk, Sound, Level, StoreCoherent, ServesBucket, Converts;
      RolledFirst(cfg, View(), season, context, read, ts);
      threw := RollTo(season);
      SoundFacts(context);
      if threw || context in ctx { return; }
      threw := FirstTree(season, context, read, ts);
    }

    method FirstTree(season: int, context: string, read: Access, ts: int) returns (threw: bool)
      requires Valid() && current == Some(season) && context !in ctx
      modifies this
      ensures Valid()
      ensures var o := EnsureContext(cfg, old(View()), season, context, read, ts);
        View() == o.state && threw == o.Threw?
      ensures !threw && context in ctx ==> Level(View(), season, context) && ServesBucket(season, context)
      ensures OnlyRenewed(context)
    {
      hide Inv, Build, Members, Settle, HeldOk, Sound, Level, StoreCoherent, ServesBucket, Converts, Grew, AllGrew;
      EnsureContextKeeps(cfg, View(), season, context, read, ts);
      SoundFacts(context);
      threw := false;
      var members := ForSeasonContext(season, context, read);
      if members.None? { return true; }
      if |members.value| > 0 {
        threw := RebuildPreservingRoots(context, members.value, ts);
        if !threw { LevelRoot(season, context); }
      }
    }

    /** Stranded members come back, and the season is never moved to do it. */
    method DoRecover(season: int, context: string, read: Access, ts: int) returns (threw: bool, r: Recovery)
      requires Valid()
      modifies this`ctx, this`cache, this`Repr, this`store, if context in ctx then {ctx[context].roots} else {}
      ensures Valid()
      ensures var o := RecoverMember(cfg, old(View()), season, context, read, ts);
        View() == o.state && threw == o.Threw? && (o.Done? ==> r == o.answer)
      ensures !threw && current == Some(season) && context in ctx ==>
        Level(View(), season, context) && ServesBucket(season, context)
      ensures SameWindows(context, old(ctx), ctx) && OnlyRenewed(context)
    {
      hide Inv, Members, ReconcileIfBehind, Sound, Level, StoreCoherent, ServesBucket, HeldOk;
      SoundFacts(context);
      r := SeasonOver;
      if current != Some(season) { return false, r; }
      var rebuilt;
      threw, rebuilt := RebuildIfBehind(season, context, read, ts);
      SizeAgrees(context);
      r := Recovered(rebuilt, Size(context));
    }

    /** The append that mirrors a durable write: the tree grows in place and publishes its new root. */
    method AppendToTree(context: string, commitment: string, ts: int)
      requires Sound() && context in ctx && field(commitment).Some? && Size(context) < cfg.capacity
      modifies this`cache, Objects(ctx[context])
      ensures Sound()
      ensures var c := old(cache).contexts[context];
        cache == old(cache).(contexts := old(cache).contexts[context := Build(cfg, c.roots, c.members + [commitment],
            ts)])
    {
      hide Build, HeldOk, Sound, SoundBut, Owned, AllHeld, RootsOf;
      SoundFacts(context);
      var c := ctx[context];
      ghost var grown := GrowHeld(context, commitment, ts);
      StillSound(context);
      HeldAgain(context, grown);
      cache := cache.(contexts := cache.contexts[context := grown]);
      SoundAgain();
    }

    method GrowHeld(context: string, commitment: string, ts: int) returns (ghost grown: Context<T>)
      requires Sound() && context in ctx && field(commitment).Some? && Size(context) < cfg.capacity
      modifies Objects(ctx[context])
      ensures HeldOk(ctx[context], grown)
      ensures var c := cache.contexts[context]; grown == Build(cfg, c.roots, c.members + [commitment], ts)
    {
      var c := ctx[context];
      assert HeldOk(c, cache.contexts[context]);
      var index := c.tree.Append(commitment);
      RootIsOfMembers(c);
      c.roots.Update([RS.RootEntry(|c.tree.commitments|, c.tree.root, ts)]);
      grown := Context(c.tree.commitments, c.roots.roots);
    }

    lemma HeldAgain(context: string, x: Context<T>)
      requires SoundBut(Some(context)) && context in ctx && HeldOk(ctx[context], x)
      ensures Parameters() && this !in Repr && Owned(ctx, Repr) && cache.current == current
      ensures AllHeld(ctx, cache.contexts[context := x], Repr, None)
    {
      hide HeldOk;
    }

    lemma SoundAgain()
      requires Parameters() && this !in Repr && Owned(ctx, Repr) && cache.current == current
      requires AllHeld(ctx, cache.contexts, Repr, None)
      ensures Sound()
    {
      hide HeldOk;
    }

    /** The tree a commit works on, level with its records. */
    method Ready(season: int, context: string, m: Meets) returns (threw: bool)
      requires Valid() && current == Some(season)
      modifies this`ctx, this`cache, this`Repr, this`store, if context in ctx then {ctx[context].roots} else {}
      ensures Valid()
      ensures var o := Prepare(cfg, old(View()), season, context, m); View() == o.state && threw == o.Threw?
      ensures OnlyRenewed(context) && (!threw ==> context in ctx)
    {
      hide Inv, Build, Members, Settle, HeldOk, Sound, Level, StoreCoherent, ServesBucket, Converts, AllGrew,
          ReconcileIfBehind;
      SoundFacts(context);
      PrepareKeeps(cfg, View(), season, context, m);
      if context !in ctx {
        var members := ForSeasonContext(season, context, m.materialize);
        if members.None? { return true; }
        SettleKeeps(cfg, old(View()), m.materialize.landed);
        MaterializeKeeps(cfg, View(), context, m.ts);
        threw := RebuildPreservingRoots(context, members.value, m.ts);
        if threw { return; }
      }
      var rebuilt;
      threw, rebuilt := RebuildIfBehind(season, context, m.reconcile, m.ts);
      SoundFacts(context);
    }

    /** The durable write, and the append of what it wrote at the place the store gave it. */
    method WriteAndAppend(context: string, d: Request, m: Meets) returns (r: Option<Reply<T>>)
      requires Sound() && StoreCoherent(store) && context in ctx && Size(context) < cfg.capacity
      modifies this`cache, this`store, Objects(ctx[context])
      ensures Sound() && StoreCoherent(store)
      ensures context in old(cache).contexts
      ensures var o := WriteAndMirror(cfg, old(View()), context, d, m);
        View() == o.state && r == if o.Threw? then None else Some(o.answer)
    {
      hide Build, HeldOk, Sound, Owned, Coherent, Converts, Admissible, Decide, Appendable, Remember, IsCanonicalField;
      SoundFacts(context);
      SizeAgrees(context);
      if m.write == Stale { return Some(StaleRoot); }
      if !Admissible(d) { return Some(InvalidStatement); }
      if m.write == FailedBefore { return None; }
      match Decide(store.index, d) {
        case Duplicate => return Some(AlreadyRegistered);
        case Conflict(_) => return Some(StatementMismatch);
        case Write(record) =>
          Decided(store.index, d);
          if m.write == FailedAfter {
            store := Store(store.index, Some(record));
            return None;
          }
          store := Store(Remember(store.index, record), None);
          if record.index != Size(context) { return Some(IndexTreeMismatch); }
          ConvertsOne(record.commitment);
          AppendToTree(context, record.commitment, m.ts);
          RootIs(context);
          r := Some(Committed(record.index, ctx[context].tree.root, Size(context)));
      }
    }

    lemma ConvertsOne(c: string)
      requires Converts(field) && IsCanonicalField(c)
      ensures field(c).Some?
    {
    }

    lemma RootIs(context: string)
      requires Sound() && context in ctx
      ensures context in cache.contexts && ctx[context].tree.root == cfg.rootOf(cache.contexts[context].members)
      ensures Size(context) == |cache.contexts[context].members|
    {
      assert HeldOk(ctx[context], cache.contexts[context]);
      RootIsOfMembers(ctx[context]);
    }

    /** The season check, the reconcile, the refusals in their order, the durable write, and the append that
        mirrors it; none when it throws. An answer given with the season current leaves the tree object's
        own root the padded root of the durable bucket. */
    method DoCommit(context: string, d: Request, byNullifier: bool, m: Meets) returns (r: Option<Reply<T>>)
      requires Valid() && d.contextHash == context
      modifies this`ctx, this`cache, this`Repr, this`store, if context in ctx then Objects(ctx[context]) else {}
      ensures Valid()
      ensures var o := Commit(cfg, old(View()), context, d, byNullifier, m);
        View() == o.state && r == if o.Threw? then None else Some(o.answer)
      ensures r.Some? && current == Some(d.season) ==>
        Level(View(), d.season, context) && ServesBucket(d.season, context) && r.value != IndexTreeMismatch
      ensures OnlyRenewed(context)
    {
      hide Inv, Members, HeldOk, Sound, Level, StoreCoherent, ServesBucket, AllGrew, Prepare, WriteAndMirror,
          AtItsIndex;
      SoundFacts(context);
      CommitKeeps(cfg, View(), context, d, byNullifier, m);
      if current != Some(d.season) { return Some(SeasonRolled); }
      var threw := Ready(d.season, context, m);
      if threw { return None; }
      SizeAgrees(context);
      if byNullifier && m.has == Throws { return None; }
      if byNullifier && KeyOf(RecordFor(d, 0)) in store.index.seen {
        r := Some(AlreadyRegistered);
      } else if Size(context) >= cfg.capacity {
        r := Some(TreeFull);
      } else if m.season.Some? && m.season.value != d.season {
        r := Some(SeasonRolled);
      } else if m.regressed {
        r := Some(ClockRegressed);
      } else {
        r := WriteAndAppend(context, d, m);
      }
      if r.Some? { LevelRoot(d.season, context); }
      SoundFacts(context);
    }

    /** Any other reader of the store. */
    method ReadStore(landed: bool)
      requires Valid()
      modifies this`store
      ensures Valid() && View() == old(View()).(store := Settle(old(store), landed))
    {
      hide Inv, StoreCoherent, Sound;
      SoundFacts("");
      SettleKeeps(cfg, View(), landed);
      SettleCoherent(store, landed);
      store := Settle(store, landed);
    }

    /** The members root a reader is given: of the context's members, or of none. */
    method MembersRoot(context: string, emptyRoot: T) returns (root: T)
      requires Valid() && emptyRoot == Root(h, z, [], depth)
      ensures var members := if context in cache.contexts then cache.contexts[context].members else [];
        MT.AllConvert(field, members) && root == Root(h, z, MT.Leaves(field, members), depth)
    {
      hide Inv;
      assert context in ctx ==> HeldOk(ctx[context], cache.contexts[context]);
      assert MT.Leaves(field, []) == [];
      root := if context in ctx then ctx[context].tree.root else emptyRoot;
    }
  }

  // ---- every run of the object -------------------------------------------------------------------------

  /** Every object some context is held in. */
  ghost function AllObjects<T(!new)>(held: map<string, Held<T>>): set<object> {
    set c, o | c in held && o in Objects(held[c]) :: o
  }

  /** What a manager holds was held before or is new. */
  twostate predicate HoldsItsOwn<T(!new)>(before: map<string, Held<T>>, new held: map<string, Held<T>>) {
    forall o :: o in AllObjects(held) ==> o in AllObjects(before) || fresh(o)
  }

  /** One event of the season, done by the manager; a restart is a new manager over the same store. */
  method Take<T(==, !new)>(m: SeasonMembers<T>, e: Event) returns (next: SeasonMembers<T>)
    requires m.Valid()
    modifies m, AllObjects(m.ctx)
    ensures next.Valid() && next.View() == Step(m.cfg, old(m.View()), e)
    ensures next.h == m.h && next.z == m.z && next.field == m.field && next.depth == m.depth && next.cfg == m.cfg
    ensures (next == m || fresh(next)) && HoldsItsOwn(old(m.ctx), next.ctx)
  {
    hide Inv, StoreCoherent, Roll, EnsureContext, RecoverMember, Commit, Settle;
    next := m;
    if e.DoEnsure? {
      var threw := m.RollTo(e.season);
    } else if e.DoEnsureContext? {
      var threw := m.DoEnsureContext(e.season, e.context, e.read, e.ts);
    } else if e.DoRecover? {
      var threw, r := m.DoRecover(e.season, e.context, e.read, e.ts);
    } else if e.DoCommit? {
      var r := m.DoCommit(e.d.contextHash, e.d, e.byNullifier, e.meets);
    } else if e.StoreRead? {
      m.ReadStore(e.landed);
    } else {
      m.ConfigIs();
      StoreStays(m.cfg, m.View());
      next := new SeasonMembers<T>(m.h, m.z, m.field, m.depth, m.cfg.window, m.cfg.monotonic, m.store);
      NothingHeld(next);
    }
    m.RenewedIsItsOwn(ContextOf(e));
  }

  /** The context an event is about. */
  function ContextOf(e: Event): string {
    match e
    case DoEnsureContext(_, context, _, _) => context
    case DoRecover(_, context, _, _) => context
    case DoCommit(d, _, _) => d.contextHash
    case _ => ""
  }

  lemma StoreStays<T(!new)>(cfg: Season.Config<T>, s: State<T>)
    requires Inv(cfg, s)
    ensures StoreOk(cfg, s.store)
  {
  }

  /** Any run of the season is a manager's: started over the store and taken through the events, it holds what
      the run says, in objects of its own. */
  method Replay<T(==, !new)>(h: (T, T) -> T, z: T, field: string -> Option<T>, depth: nat, window: nat,
                             monotonic: bool, ix: Index, events: seq<Event>)
    returns (m: SeasonMembers<T>)
    requires Converts(field) && Coherent(ix) && Bounded(ConfigFor(h, z, field, depth, window, monotonic), ix)
    ensures m.Valid() && fresh(m) && fresh(AllObjects(m.ctx))
    ensures m.h == h && m.z == z && m.field == field && m.depth == depth
    ensures m.cfg == ConfigFor(h, z, field, depth, window, monotonic) && m.View() == Run(m.cfg, Start(ix), events)
  {
    hide Step, Coherent, Bounded, AllObjects;
    StartOk(ConfigFor(h, z, field, depth, window, monotonic), ix);
    m := new SeasonMembers<T>(h, z, field, depth, window, monotonic, Store(ix, None));
    NothingHeld(m);
    for k := 0 to |events|
      invariant m.Valid() && fresh(m) && fresh(AllObjects(m.ctx))
      invariant m.h == h && m.z == z && m.field == field && m.depth == depth
      invariant m.cfg == ConfigFor(h, z, field, depth, window, monotonic)
      invariant m.View() == Run(m.cfg, Start(ix), events[..k])
    {
      assert events[..k + 1][..k] == events[..k];
      m := Take(m, events[k]);
    }
    assert events[..|events|] == events;
  }

  lemma StartOk<T(!new)>(cfg: Season.Config<T>, ix: Index)
    requires Coherent(ix) && Bounded(cfg, ix)
    ensures StoreCoherent(Store(ix, None)) && StoreOk(cfg, Store(ix, None))
  {
  }

  lemma NothingHeld<T(!new)>(m: SeasonMembers<T>)
    requires m.Sound() && m.cache.contexts == map[]
    ensures AllObjects(m.ctx) == {}
  {
  }
}
