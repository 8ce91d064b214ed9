/** The pipeline's guard and the canonical hash together: what a live write replaces. */
module NoClobber {
  import opened Strings
  import opened ConfigTree
  import opened ConfigDiff
  import opened ConfigHash
  import opened Pipeline

  /** The hash tells hash inputs apart. */
  ghost predicate Collisionless(env: Setting) {
    forall x, y :: env.hash(x) == env.hash(y) ==> HashInput(x) == HashInput(y)
  }

  ghost predicate Plain(doc: Element) {
    WellFormed(doc) && NewlineFree(Flatten(doc))
  }

  /** Over every interleaving, the first write of a job to a device that nobody edited since the job read
      it replaces a document equivalent to the one the baseline of its first change was taken from. */
  lemma ReplacesBaseline(env: Setting, st: seq<State>, es: seq<Event>, n: nat, i: nat, doc: Element)
    requires Trace(env, st, es) && n <= |es| && i < |st[n].log|
    requires Collisionless(env) && Plain(doc)
    requires var r := st[n].log[i];
             r.first && r.undisturbed && r.baseline != "" && r.baseline == env.hash(doc) && Plain(r.replaced)
    ensures Equivalent(StripVolatile(st[n].log[i].replaced), StripVolatile(doc))
  {
    var r := st[n].log[i];
    EveryWriteJustified(env, st, es, n, i);
    assert env.hash(r.replaced) == env.hash(doc);
    HashFaithful(r.replaced, doc);
  }
}
