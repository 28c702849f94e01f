/** Building runs of a gateway connection step by step. */
module GatewayRuns {
  import opened Bytes
  import opened StreamNames
  import opened Gateway

  lemma {:induction false} ReachesMore(h: Handler, run: seq<Event>, t: Handler, e: Event)
    requires Reaches(h, run, t) && Enabled(t, e)
    ensures Reaches(h, run + [e], Next(t, e))
    decreases |run|
  {
    if run == [] {
      assert [e][1..] == [] && run + [e] == [e];
    } else {
      ReachesMore(Next(h, run[0]), run[1..], t, e);
      assert (run + [e])[1..] == run[1..] + [e];
    }
  }

  lemma Further(h: Handler, run: seq<Event>, t: Handler, e: Event) returns (run': seq<Event>, t': Handler)
    requires Reaches(h, run, t) && Enabled(t, e)
    ensures Reaches(h, run', t') && t' == Next(t, e) && run' == run + [e]
  {
    ReachesMore(h, run, t, e);
    run', t' := run + [e], Next(t, e);
  }

  const KEY_OK := PolicyVerdict(false, true, false, true, false)
  const KEY_UNKNOWN := PolicyVerdict(false, false, false, true, false)

  lemma KeyPasses(h: Handler)
    requires h.pc.PolicyWait?
    ensures var t := OnPolicy(h, KEY_OK, "anon", {}, map[]);
            && t.pc.GateWait? && t.attempts == h.attempts && t.drains == h.drains
            && t.deaths == h.deaths && t.published == h.published && t.closed == h.closed && t.once == h.once
  {
    assert Passes(AskOf(h, KEY_OK, "anon", {}, map[]));
  }

  /** A publish that nothing objects to, up to the grant. */
  lemma OneGrant(h: Handler, run: seq<Event>, t: Handler) returns (run': seq<Event>, t': Handler)
    requires Reaches(h, run, t) && t.pc == Reading
    ensures Reaches(h, run', t') && t'.pc.DialWait? && t'.attempts == t.attempts + 1
    ensures t'.drains == t.drains && t'.deaths == t.deaths && t'.published == t.published
    ensures t'.closed == t.closed && t'.once == t.once
  {
    run', t' := Further(h, run, t, Recv(Publish(PublishName("", "key")), {}));
    KeyPasses(t');
    run', t' := Further(h, run', t', PolicyReply(KEY_OK, "anon", {}, map[]));
    run', t' := Further(h, run', t', GateReply(true));
  }

  /** And on to its success. */
  lemma OnePublish(h: Handler, run: seq<Event>, t: Handler) returns (run': seq<Event>, t': Handler)
    requires Reaches(h, run, t) && t.pc == Reading
    ensures Reaches(h, run', t') && t'.pc == Reading && t'.attempts == t.attempts + 1 && t'.drains == t.drains + 1
    ensures t'.deaths == t.deaths && t'.closed == t.closed && t'.once == t.once
  {
    run', t' := OneGrant(h, run, t);
    run', t' := Further(h, run', t', DialReply(Succeeded));
    run', t' := Further(h, run', t', PublishReply(Succeeded));
  }
}
