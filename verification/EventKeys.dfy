/** What event keys and publish tokens may hold (app/server/services/events.ts), and what the gateway does with them. */
module EventKeys {
  import opened Bytes
  import opened StreamNames
  import A = SlugAliases

  /**
   * The key of an event is used as an application name in a path, after rewriting. The valid keys are
   * just those names that the rewriting leaves alone and that hold no capital, dot or at sign.
   */
  lemma KeysAreSafeExactly(key: string)
    ensures A.ValidKey(key) <==>
            && key != "" && SafeName(key) == key
            && forall i | 0 <= i < |key| :: !('A' <= key[i] <= 'Z') && key[i] != '.' && key[i] != '@'
  {
    SafeNameFixesExactlySafeNames(key);
    assert AllSafe(key) <==> forall i | 0 <= i < |key| :: Safe(key[i]);
  }

  /** A publish token that an event may have. */
  predicate ValidToken(token: string) {
    token != "" && forall i | 0 <= i < |token| ::
      'A' <= token[i] <= 'Z' || 'a' <= token[i] <= 'z' || '0' <= token[i] <= '9' || token[i] in "._~-"
  }

  /** A valid token reaches the upstream whole, and comes back with the name. */
  lemma ValidTokensComeBack(name: string, token: string)
    requires ValidToken(token)
    ensures PublishParse(Rewritten(name, token)) == PublishName(SafeName(name), token)
  {
    RewrittenNameReparses(name, token);
  }
}
