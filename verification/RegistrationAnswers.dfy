/**
  What an append answers, said of the request's own fields (core/registration_store.js): when it is a duplicate,
  when a conflict, and what exactly is written. Nothing here speaks of a record through the request it was
  made from.
 */
module RegistrationAnswers {
  import opened FieldElements
  import opened RegistrationLog
  import opened Wrappers

  /** The records of a request's season and context. */
  function Peers(ix: Index, d: Request): seq<Record> {
    RecordsOf(ix, Bucket(d.season, d.contextHash))
  }

  /** Some record of the request's season and context has its nullifier. */
  ghost predicate Spent(ix: Index, d: Request) {
    exists i :: 0 <= i < |Peers(ix, d)| && Peers(ix, d)[i].regNullifier == d.regNullifier
  }

  /** What the first record of a season and context declared, if any: without the fields, plonk and derive. */
  function Declared(ix: Index, d: Request): Option<Declaration> {
    if |Peers(ix, d)| == 0 then None
    else
      var r := Peers(ix, d)[0];
      Some(Declaration(if r.engine.Some? then r.engine.value else "plonk",
                       if r.statement.Some? then r.statement.value else "derive"))
  }

  /** r is this request and no other, at this place. */
  predicate IsRequest(r: Record, d: Request, index: int) {
    && r.season == d.season && r.contextHash == d.contextHash && r.regNullifier == d.regNullifier
    && r.commitment == d.commitment && r.engine == Some(d.engine) && r.statement == Some(d.statement)
    && r.index == index
  }

  lemma SpentIsSeen(ix: Index, d: Request)
    requires Coherent(ix)
    ensures Spent(ix, d) <==> Key(d.season, d.contextHash, d.regNullifier) in ix.seen
  {
    var k, b := Key(d.season, d.contextHash, d.regNullifier), Bucket(d.season, d.contextHash);
    if Spent(ix, d) {
      var i :| 0 <= i < |Peers(ix, d)| && Peers(ix, d)[i].regNullifier == d.regNullifier;
      assert BucketOk(b, ix.byBucket[b]);
      assert BucketOf(ix.byBucket[b][i]) == b && KeyOf(ix.byBucket[b][i]) in ix.seen;
    }
    if k in ix.seen {
      assert KeyOf(Peers(ix, d)[FindKey(Peers(ix, d), k)]) == k;
    }
  }

  /** The three answers, over an index as it always is: a duplicate exactly when the nullifier is spent in the
      request's season and context; otherwise a conflict exactly when the first record there declared another
      engine or statement, which is what is reported; and otherwise the record written is the request itself,
      at the next place. */
  lemma DecidesAsPromised(ix: Index, d: Request)
    requires Coherent(ix)
    ensures Decide(ix, d).Duplicate? <==> Spent(ix, d)
    ensures Decide(ix, d).Conflict? <==>
      !Spent(ix, d) && Declared(ix, d).Some? && Declared(ix, d).value != Declaration(d.engine, d.statement)
    ensures Decide(ix, d).Conflict? ==> Declared(ix, d) == Some(Decide(ix, d).declared)
    ensures Decide(ix, d).Write? ==> IsRequest(Decide(ix, d).record, d, |Peers(ix, d)|)
  {
    SpentIsSeen(ix, d);
  }

  /** A record that joins is the last of its season and context, where it was expected, and no other season and
      context has changed. */
  lemma WritesTheRequest(ix: Index, d: Request)
    requires Coherent(ix) && Decide(ix, d).Write?
    ensures var ix' := Remember(ix, Decide(ix, d).record);
      && Peers(ix', d) == Peers(ix, d) + [Decide(ix, d).record]
      && Spent(ix', d) && Declared(ix', d) == Some(if Declared(ix, d).Some? then Declared(ix, d).value
                                                   else Declaration(d.engine, d.statement))
      && forall b :: b != Bucket(d.season, d.contextHash) ==> RecordsOf(ix', b) == RecordsOf(ix, b)
  {
    DecidesAsPromised(ix, d);
    var ix', n := Remember(ix, Decide(ix, d).record), |Peers(ix, d)|;
    assert Peers(ix', d)[n].regNullifier == d.regNullifier;
  }

  /** The declarations a new registration may make. */
  lemma DeclarationsAdmitted(engine: string, statement: string)
    ensures IsValidEngineStatement(engine, statement) <==>
      (engine, statement) in {("groth16", "derive"), ("plonk", "derive"), ("zkvm", "derive"), ("zkvm", "custody")}
  {
  }

  /** One nullifier is spent once: two records of a season and context whose nullifiers are one field element,
      however spelled, are one record. */
  lemma NullifierSpentOnce(ix: Index, b: Bucket, i: nat, j: nat)
    requires Coherent(ix) && b in ix.byBucket && i < |ix.byBucket[b]| && j < |ix.byBucket[b]|
    requires var x, y := ix.byBucket[b][i].regNullifier, ix.byBucket[b][j].regNullifier;
      Digits(x) && Digits(y) && Value(x) == Value(y)
    ensures i == j
  {
    assert BucketOk(b, ix.byBucket[b]);
    var r, t := ix.byBucket[b][i], ix.byBucket[b][j];
    assert Usable(r) && Usable(t) && BucketOf(r) == BucketOf(t) == b;
    OneSpelling(r.regNullifier, t.regNullifier);
    assert KeyOf(r) == KeyOf(t);
  }

  /** Nor by two spellings of one context. */
  lemma ContextNamedOnce(ix: Index, b: Bucket, c: Bucket)
    requires Coherent(ix) && b in ix.byBucket && c in ix.byBucket && b.season == c.season
    requires Digits(b.contextHash) && Digits(c.contextHash) && Value(b.contextHash) == Value(c.contextHash)
    ensures b == c
  {
    assert BucketOk(b, ix.byBucket[b]) && BucketOk(c, ix.byBucket[c]);
    assert BucketOf(ix.byBucket[b][0]) == b && Usable(ix.byBucket[b][0]);
    assert BucketOf(ix.byBucket[c][0]) == c && Usable(ix.byBucket[c][0]);
    OneSpelling(b.contextHash, c.contextHash);
  }
}
