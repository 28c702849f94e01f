/**
 * Whose name a publisher streams under where an account is required (node/rtmp/server.go): names
 * are compared up to case folding first and made safe afterwards, and the two do not commute.
 */
module OwnNames {
  import opened Bytes
  import opened StreamNames
  import opened Gateway
  import opened GatewayRuns
  import opened GatewayOrder

  /** Position by position, a safe rune stands against a safe one. */
  predicate SafeAlike(a: string, b: string)
    requires |a| == |b|
  {
    forall i | 0 <= i < |a| :: Safe(a[i]) <==> Safe(b[i])
  }

  function Cleaned(c: char): char {
    if Safe(c) then c else '_'
  }

  /** Of two runes with one folding, cleaning keeps that exactly when both are safe or neither is. */
  lemma CleanedFoldsExactly(c: char, d: char, folds: FoldTable)
    requires FoldRune(c, folds) == FoldRune(d, folds)
    ensures FoldRune(Cleaned(c), folds) == FoldRune(Cleaned(d), folds) <==> (Safe(c) <==> Safe(d))
    ensures Safe(c) && !Safe(d) ==> d == LONG_S || d == KELVIN
  {
  }

  /** Names that are equal up to folding stay so when made safe exactly if they are safe alike. */
  lemma SafeNamesFoldExactly(a: string, b: string, folds: FoldTable)
    requires EqualFold(a, b, folds)
    ensures EqualFold(SafeName(a), SafeName(b), folds) <==> SafeAlike(a, b)
  {
    var x, y := SafeName(a), SafeName(b);
    forall i | 0 <= i < |a|
      ensures FoldRune(x[i], folds) == FoldRune(y[i], folds) <==> (Safe(a[i]) <==> Safe(b[i]))
    {
      CleanedFoldsExactly(a[i], b[i], folds);
    }
  }

  lemma FoldsWithItself(a: string, folds: FoldTable)
    ensures EqualFold(a, a, folds)
  {
  }

  /**
   * What a passing answer of a policy that requires an account means for the name: it is that of the
   * verified account, up to folding, exactly when there is one and either no explicit name was
   * given or it is safe wherever the account is and nowhere else.
   */
  lemma PassedNameIsAccountExactly(a: Ask, ip: string)
    requires Passes(a) && OwnCandidate(a, ip) && a.verdict.requireAccountAuth
    ensures a.authed && (a.explicit != "" ==> |a.explicit| == |a.user|)
    ensures EqualFold(SafeName(a.user), a.final, a.folds) <==>
            a.user != "" && (a.explicit == "" || SafeAlike(a.user, a.explicit))
  {
    if a.explicit != "" {
      SafeNamesFoldExactly(a.user, a.explicit, a.folds);
    } else {
      FoldsWithItself(SafeName(a.user), a.folds);
    }
  }

  /**
   * In every run: the name under which a handler streams is that of a policy question asked for this
   * attempt; and where the answer required an account, the publisher was verified as somebody, and
   * streams under that account's name, up to folding, exactly as above.
   */
  lemma RequiredAccountIsOwnNameExactly(ip: string, run: seq<Event>, h: Handler) returns (ask: Ask)
    requires Reaches(Start(ip), run, h) && h.published > 0
    ensures DidAsk(h.log, h.published, ask) && Passes(ask) && ask.final == h.name
    ensures ask.verdict.requireAccountAuth ==>
              && ask.authed && DidVerify(h.log, ask.user) && (ask.explicit != "" ==> |ask.explicit| == |ask.user|)
              && (EqualFold(SafeName(ask.user), h.name, ask.folds) <==>
                  ask.user != "" && (ask.explicit == "" || SafeAlike(ask.user, ask.explicit)))
  {
    ask := StreamsUnderAskedName(ip, run, h);
    if ask.verdict.requireAccountAuth {
      PassedNameIsAccountExactly(ask, ip);
    }
  }

  const ACCOUNT_REQUIRED := PolicyVerdict(false, true, false, true, true)

  /** From a passing answer of the policy on, with nothing going wrong. */
  lemma BringUp(ip: string, run: seq<Event>, h: Handler, v: PolicyVerdict) returns (run': seq<Event>, h': Handler)
    requires Reaches(Start(ip), run, h) && h.pc.PolicyWait? && h.pc.candidate != ""
    requires Passes(AskOf(h, v, "anon", {}, map[]))
    ensures Reaches(Start(ip), run', h') && h'.drains == h.drains + 1 && h'.name == h.pc.candidate
    ensures h'.authed == h.authed && h'.user == h.user && DidAsk(h'.log, h.attempts, AskOf(h, v, "anon", {}, map[]))
  {
    run', h' := Further(Start(ip), run, h, PolicyReply(v, "anon", {}, map[]));
    run', h' := Further(Start(ip), run', h', GateReply(true));
    run', h' := Further(Start(ip), run', h', DialReply(Succeeded));
    run', h' := Further(Start(ip), run', h', PublishReply(Succeeded));
  }

  lemma LongSFolds()
    ensures var explicit := [LONG_S] + "am@x.org";
            EqualFold("sam@x.org", explicit, map[]) && SafeName(explicit) == "_am@x.org"
  {
  }

  /** Verified as sam, publishing as sam with a long s: the stream gets a name that is nobody's account. */
  lemma LongSGetsAnotherName(ip: string) returns (run: seq<Event>, h: Handler, ask: Ask)
    ensures Reaches(Start(ip), run, h) && h.drains == 1 && h.authed && h.user == "sam@x.org" && h.name == "_am@x.org"
    ensures DidAsk(h.log, 1, ask) && ask.verdict.requireAccountAuth && Passes(ask)
  {
    var explicit := [LONG_S] + "am@x.org";
    LongSFolds();
    run, h := Further(Start(ip), [], Start(ip), Recv(Connect(Response("sam@x.org"), VerifyVerdict(true, true)), {}));
    run, h := Further(Start(ip), run, h, Recv(Publish(PublishName(explicit, "key")), {}));
    ask := AskOf(h, ACCOUNT_REQUIRED, "anon", {}, map[]);
    run, h := BringUp(ip, run, h, ACCOUNT_REQUIRED);
  }
}
