/**
 * Event keys and their retired aliases (app/server/services/events.ts, the alias repository and
 * the guide endpoint), against the history of who owned which key.
 */
module SlugAliases {
  import opened Bytes

  type Id = nat
  type Slug = string

  /** The slug column of the events table, the alias table, and the next automatic id. */
  datatype Tables = Tables(slugs: map<Id, Slug>, aliases: map<Slug, Id>, nextId: Id)

  predicate ValidKey(slug: Slug) {
    slug != "" && forall i | 0 <= i < |slug| ::
      'a' <= slug[i] <= 'z' || '0' <= slug[i] <= '9' || slug[i] == '_' || slug[i] == '-'
  }

  predicate Used(t: Tables, slug: Slug) {
    exists id | id in t.slugs :: t.slugs[id] == slug
  }

  predicate UsedByOther(t: Tables, slug: Slug, id: Id) {
    exists j | j in t.slugs :: t.slugs[j] == slug && j != id
  }

  /** A call to the service. `ok` says whether its checks unrelated to keys pass. */
  datatype Call =
    | Create(slug: Slug, ok: bool)
    | Rename(id: Id, slug: Slug, ok: bool)
    | Delete(id: Id)

  predicate Accepts(t: Tables, c: Call) {
    match c
    case Create(slug, ok) => ValidKey(slug) && !Used(t, slug) && ok
    case Rename(id, slug, ok) => id in t.slugs && RenameReachesAliases(t, id, slug) && ok
    case Delete(id) => id in t.slugs
  }

  /** The checks a rename passes before it writes to the alias table. */
  predicate RenameReachesAliases(t: Tables, id: Id, slug: Slug)
    requires id in t.slugs
  {
    ValidKey(slug) && slug != t.slugs[id] && !UsedByOther(t, slug, id)
  }

  function RenamedAliases(t: Tables, id: Id, slug: Slug): map<Slug, Id>
    requires id in t.slugs
  {
    t.aliases[t.slugs[id] := id] - {slug}
  }

  function WithoutEvent(aliases: map<Slug, Id>, id: Id): map<Slug, Id> {
    map s | s in aliases && aliases[s] != id :: aliases[s]
  }

  function Next(t: Tables, c: Call): Tables {
    match c
    case Create(slug, _) =>
      if Accepts(t, c) then Tables(t.slugs[t.nextId := slug], t.aliases - {slug}, t.nextId + 1) else t
    case Rename(id, slug, ok) =>
      if id !in t.slugs || !RenameReachesAliases(t, id, slug) then t
      else if !ok then t.(aliases := RenamedAliases(t, id, slug))  // the alias writes come first and stay
      else Tables(t.slugs[id := slug], RenamedAliases(t, id, slug), t.nextId)
    case Delete(id) =>
      if id in t.slugs then Tables(t.slugs - {id}, WithoutEvent(t.aliases, id), t.nextId) else t
  }

  ghost function FindBySlug(t: Tables, slug: Slug): Option<Id> {
    if Used(t, slug) then var id :| id in t.slugs && t.slugs[id] == slug; Some(id) else None
  }

  /** Which event the guide shows for a key: its owner, or the event that was renamed away from it. */
  ghost function Resolve(t: Tables, slug: Slug): Option<Id> {
    var owner := FindBySlug(t, slug);
    if owner.Some? then owner
    else if slug in t.aliases && t.aliases[slug] in t.slugs && t.slugs[t.aliases[slug]] != slug then
      Some(t.aliases[slug])
    else None
  }

  // ---- the history of ownership ----

  /** What really happened to events, oldest first. */
  datatype Fact = Acquired(id: Id, slug: Slug) | Removed(id: Id)

  function FactOf(t: Tables, c: Call): seq<Fact> {
    if !Accepts(t, c) then []
    else match c
      case Create(slug, _) => [Acquired(t.nextId, slug)]
      case Rename(id, slug, _) => [Acquired(id, slug)]
      case Delete(id) => [Removed(id)]
  }

  /** The event that most recently acquired the key. */
  function LastOwner(h: seq<Fact>, slug: Slug): Option<Id> {
    if h == [] then None
    else
      var last := h[|h| - 1];
      if last.Acquired? && last.slug == slug then Some(last.id) else LastOwner(h[..|h| - 1], slug)
  }

  /** The key an event has now; None when it does not exist. */
  function KeyOf(h: seq<Fact>, id: Id): Option<Slug> {
    if h == [] then None
    else
      var last := h[|h| - 1];
      if last.id != id then KeyOf(h[..|h| - 1], id)
      else if last.Acquired? then Some(last.slug) else None
  }

  /** The event a visitor with this key is looking for: its last owner, while that exists. */
  function Wanted(h: seq<Fact>, slug: Slug): Option<Id> {
    var owner := LastOwner(h, slug);
    if owner.Some? && KeyOf(h, owner.value).Some? then owner else None
  }

  /** The tables agree with the history. */
  ghost predicate Refines(t: Tables, h: seq<Fact>) {
    && (forall id :: KeyOf(h, id) == if id in t.slugs then Some(t.slugs[id]) else None)
    && (forall id | id in t.slugs :: LastOwner(h, t.slugs[id]) == Some(id) && id < t.nextId)
    && (forall s | s in t.aliases :: t.aliases[s] in t.slugs && LastOwner(h, s) == Some(t.aliases[s]))
    && (forall s | LastOwner(h, s).Some? :: RetiredIsAliased(t, LastOwner(h, s).value, s))
  }

  /** An existing event that last owned a key and has another one now is reachable through the alias. */
  ghost predicate RetiredIsAliased(t: Tables, id: Id, s: Slug) {
    id < t.nextId && (id in t.slugs && t.slugs[id] != s ==> s in t.aliases)
  }

  /** No alias points at an event that has that very key. */
  ghost predicate NoSelfAlias(t: Tables) {
    forall s | s in t.aliases && t.aliases[s] in t.slugs :: t.slugs[t.aliases[s]] != s
  }

  lemma ResolveIsWanted(t: Tables, h: seq<Fact>, slug: Slug)
    requires Refines(t, h)
    ensures Resolve(t, slug) == Wanted(h, slug)
  {
    var owner := FindBySlug(t, slug);
    if owner.Some? {
      assert LastOwner(h, t.slugs[owner.value]) == owner;
      assert KeyOf(h, owner.value).Some?;
    } else if slug in t.aliases {
      assert LastOwner(h, slug) == Some(t.aliases[slug]);
      assert KeyOf(h, t.aliases[slug]).Some?;
    } else if LastOwner(h, slug).Some? {
      assert RetiredIsAliased(t, LastOwner(h, slug).value, slug);
    }
  }

  lemma Snoc(h: seq<Fact>, f: Fact)
    ensures forall s :: LastOwner(h + [f], s) == if f.Acquired? && f.slug == s then Some(f.id) else LastOwner(h, s)
    ensures forall id :: KeyOf(h + [f], id) ==
                         if f.id != id then KeyOf(h, id) else if f.Acquired? then Some(f.slug) else None
  {
    assert (h + [f])[..|h|] == h;
  }

  lemma CreateKeeps(t: Tables, h: seq<Fact>, slug: Slug)
    requires Refines(t, h) && Accepts(t, Create(slug, true))
    ensures Refines(Next(t, Create(slug, true)), h + [Acquired(t.nextId, slug)])
  {
    Snoc(h, Acquired(t.nextId, slug));
    var t', h' := Next(t, Create(slug, true)), h + [Acquired(t.nextId, slug)];
    forall s | LastOwner(h', s).Some?
      ensures RetiredIsAliased(t', LastOwner(h', s).value, s)
    {
      if s != slug {
        assert RetiredIsAliased(t, LastOwner(h, s).value, s);
      }
    }
  }

  lemma RenameKeeps(t: Tables, h: seq<Fact>, id: Id, slug: Slug)
    requires Refines(t, h) && Accepts(t, Rename(id, slug, true))
    ensures Refines(Next(t, Rename(id, slug, true)), h + [Acquired(id, slug)])
  {
    Snoc(h, Acquired(id, slug));
    var t', h' := Next(t, Rename(id, slug, true)), h + [Acquired(id, slug)];
    assert LastOwner(h, t.slugs[id]) == Some(id);
    forall s | LastOwner(h', s).Some?
      ensures RetiredIsAliased(t', LastOwner(h', s).value, s)
    {
      if s != slug {
        assert RetiredIsAliased(t, LastOwner(h, s).value, s);
      }
    }
  }

  lemma DeleteKeeps(t: Tables, h: seq<Fact>, id: Id)
    requires Refines(t, h) && Accepts(t, Delete(id))
    ensures Refines(Next(t, Delete(id)), h + [Removed(id)])
  {
    Snoc(h, Removed(id));
    var t', h' := Next(t, Delete(id)), h + [Removed(id)];
    forall s | LastOwner(h', s).Some?
      ensures RetiredIsAliased(t', LastOwner(h', s).value, s)
    {
      assert RetiredIsAliased(t, LastOwner(h, s).value, s);
    }
  }

  lemma AcceptedKeepsRefinement(t: Tables, h: seq<Fact>, c: Call)
    requires Refines(t, h) && Accepts(t, c)
    ensures Refines(Next(t, c), h + FactOf(t, c))
  {
    match c {
      case Create(slug, _) => CreateKeeps(t, h, slug);
      case Rename(id, slug, _) => RenameKeeps(t, h, id, slug);
      case Delete(id) => DeleteKeeps(t, h, id);
    }
  }

  lemma AcceptedKeepsNoSelfAlias(t: Tables, c: Call)
    requires NoSelfAlias(t) && Accepts(t, c) && (forall s | s in t.aliases :: t.aliases[s] in t.slugs)
    ensures NoSelfAlias(Next(t, c))
  {
  }

  // ---- a rename that fails after its alias writes ----

  predicate FailsLate(t: Tables, c: Call) {
    c.Rename? && c.id in t.slugs && RenameReachesAliases(t, c.id, c.slug) && !c.ok
  }

  /**
   * A rename that passes the key checks but fails a later one has already touched the aliases.
   * Every key still leads where it should exactly when the requested key was nobody's alias.
   */
  lemma LateFailureHarmlessExactlyWithoutAlias(t: Tables, h: seq<Fact>, c: Call)
    requires Refines(t, h) && FailsLate(t, c)
    ensures (forall s :: Resolve(Next(t, c), s) == Wanted(h, s)) <==> c.slug !in t.aliases
    ensures Refines(Next(t, c), h) <==> c.slug !in t.aliases
  {
    var t' := Next(t, c);
    assert LastOwner(h, t.slugs[c.id]) == Some(c.id);
    if c.slug !in t.aliases {
      forall s | LastOwner(h, s).Some?
        ensures RetiredIsAliased(t', LastOwner(h, s).value, s)
      {
        assert RetiredIsAliased(t, LastOwner(h, s).value, s);
      }
      forall s ensures Resolve(t', s) == Wanted(h, s) {
        ResolveIsWanted(t', h, s);
      }
    } else {
      var e := t.aliases[c.slug];
      assert LastOwner(h, c.slug) == Some(e) && KeyOf(h, e).Some? && t.slugs[e] != c.slug;
      assert !Used(t', c.slug);
      assert Resolve(t', c.slug) == None && Wanted(h, c.slug) == Some(e);
      assert !RetiredIsAliased(t', e, c.slug);
    }
  }

  // ---- whole runs ----

  function After(t: Tables, calls: seq<Call>): Tables
    decreases |calls|
  {
    if calls == [] then t else After(Next(t, calls[0]), calls[1..])
  }

  function History(t: Tables, calls: seq<Call>): seq<Fact>
    decreases |calls|
  {
    if calls == [] then [] else FactOf(t, calls[0]) + History(Next(t, calls[0]), calls[1..])
  }

  /** No call of the run fails late while the key it asks for is somebody's alias. */
  predicate NoHarmfulFailure(t: Tables, calls: seq<Call>)
    decreases |calls|
  {
    calls == [] || (!(FailsLate(t, calls[0]) && calls[0].slug in t.aliases) && NoHarmfulFailure(Next(t, calls[0]), calls[1..]))
  }

  lemma {:induction false} RunKeepsRefinement(t: Tables, h: seq<Fact>, calls: seq<Call>)
    requires Refines(t, h) && NoHarmfulFailure(t, calls)
    ensures Refines(After(t, calls), h + History(t, calls))
    decreases |calls|
  {
    if calls == [] {
      assert h + [] == h;
    } else {
      var c := calls[0];
      if Accepts(t, c) {
        AcceptedKeepsRefinement(t, h, c);
      } else {
        assert h + FactOf(t, c) == h;
        LateFailureKeeps(t, h, c);
      }
      RunKeepsRefinement(Next(t, c), h + FactOf(t, c), calls[1..]);
      assert h + FactOf(t, c) + History(Next(t, c), calls[1..]) == h + History(t, calls);
    }
  }

  lemma LateFailureKeeps(t: Tables, h: seq<Fact>, c: Call)
    requires Refines(t, h) && !Accepts(t, c) && !(FailsLate(t, c) && c.slug in t.aliases)
    ensures Refines(Next(t, c), h)
  {
    if FailsLate(t, c) {
      var t' := Next(t, c);
      assert LastOwner(h, t.slugs[c.id]) == Some(c.id);
      forall s | LastOwner(h, s).Some?
        ensures RetiredIsAliased(t', LastOwner(h, s).value, s)
      {
        assert RetiredIsAliased(t, LastOwner(h, s).value, s);
      }
    }
  }

  const NoEvents := Tables(map[], map[], 1)

  /**
   * Over any run of calls, accepted or refused, a key leads to the event that most recently owned
   * it while that event exists, and to nothing otherwise, unless a call failed late on an alias.
   */
  lemma KeysLeadToLastOwner(calls: seq<Call>, slug: Slug)
    requires NoHarmfulFailure(NoEvents, calls)
    ensures Resolve(After(NoEvents, calls), slug) == Wanted(History(NoEvents, calls), slug)
  {
    RunKeepsRefinement(NoEvents, [], calls);
    assert [] + History(NoEvents, calls) == History(NoEvents, calls);
    ResolveIsWanted(After(NoEvents, calls), History(NoEvents, calls), slug);
  }

  /** Every key, live or retired, is a valid one, and no two events have the same. */
  ghost predicate GoodKeys(t: Tables) {
    && (forall id | id in t.slugs :: ValidKey(t.slugs[id]) && id < t.nextId)
    && (forall i, j | i in t.slugs && j in t.slugs && i != j :: t.slugs[i] != t.slugs[j])
    && (forall s | s in t.aliases :: ValidKey(s))
  }

  /** In every run at all, late failures included, keys stay so. */
  lemma {:induction false} KeysStayGood(t: Tables, calls: seq<Call>)
    requires GoodKeys(t)
    ensures GoodKeys(After(t, calls))
    decreases |calls|
  {
    if calls != [] {
      CallKeepsKeysGood(t, calls[0]);
      KeysStayGood(Next(t, calls[0]), calls[1..]);
    }
  }

  lemma CallKeepsKeysGood(t: Tables, c: Call)
    requires GoodKeys(t)
    ensures GoodKeys(Next(t, c))
  {
  }

  predicate NoLateFailure(t: Tables, calls: seq<Call>)
    decreases |calls|
  {
    calls == [] || (!FailsLate(t, calls[0]) && NoLateFailure(Next(t, calls[0]), calls[1..]))
  }

  lemma {:induction false} RunKeepsNoSelfAlias(t: Tables, h: seq<Fact>, calls: seq<Call>)
    requires Refines(t, h) && NoSelfAlias(t) && NoLateFailure(t, calls)
    ensures NoHarmfulFailure(t, calls) && NoSelfAlias(After(t, calls))
    decreases |calls|
  {
    if calls != [] {
      var c := calls[0];
      if Accepts(t, c) {
        AcceptedKeepsRefinement(t, h, c);
        AcceptedKeepsNoSelfAlias(t, c);
      } else {
        assert Next(t, c) == t && h + FactOf(t, c) == h;
      }
      RunKeepsNoSelfAlias(Next(t, c), h + FactOf(t, c), calls[1..]);
    }
  }

  /** The alias table after a run without late failures holds exactly the retired keys of existing events. */
  lemma AliasesAreRetiredKeys(calls: seq<Call>, slug: Slug, id: Id)
    requires NoLateFailure(NoEvents, calls)
    ensures var t, h := After(NoEvents, calls), History(NoEvents, calls);
            slug in t.aliases && t.aliases[slug] == id <==>
            LastOwner(h, slug) == Some(id) && KeyOf(h, id).Some? && KeyOf(h, id) != Some(slug)
  {
    RunKeepsNoSelfAlias(NoEvents, [], calls);
    RunKeepsRefinement(NoEvents, [], calls);
    var t, h := After(NoEvents, calls), History(NoEvents, calls);
    assert [] + h == h;
    assert KeyOf(h, id) == if id in t.slugs then Some(t.slugs[id]) else None;
    if LastOwner(h, slug).Some? {
      assert RetiredIsAliased(t, LastOwner(h, slug).value, slug);
    }
  }

  /** A redirect that is lost: event 2's refused rename to "a" drops the alias of event 1. */
  lemma LateFailureLosesRedirect()
    ensures var t := After(NoEvents, [Create("a", true), Create("b", true), Rename(1, "c", true)]);
            && Resolve(t, "a") == Some(1)
            && !Accepts(t, Rename(2, "a", false)) && Resolve(Next(t, Rename(2, "a", false)), "a") == None
  {
    var c1, c2, c3 := Create("a", true), Create("b", true), Rename(1, "c", true);
    var t1, t2 := Tables(map[1 := "a"], map[], 2), Tables(map[1 := "a", 2 := "b"], map[], 3);
    var t3 := Tables(map[1 := "c", 2 := "b"], map["a" := 1], 3);
    assert Next(NoEvents, c1) == t1;
    assert Next(t1, c2) == t2;
    assert Next(t2, c3) == t3;
    assert After(t2, [c3]) == t3;
    assert [c2, c3][1..] == [c3] && [c1, c2, c3][1..] == [c2, c3];
    assert After(t1, [c2, c3]) == t3;
    assert After(NoEvents, [c1, c2, c3]) == t3;
    assert Next(t3, Rename(2, "a", false)) == Tables(map[1 := "c", 2 := "b"], map["b" := 2], 3);
  }

  // ---- the services themselves ----

  class Service {
    var slugs: map<Id, Slug>
    var aliases: map<Slug, Id>
    var nextId: Id

    function Abs(): Tables
      reads this
    {
      Tables(slugs, aliases, nextId)
    }

    constructor ()
      ensures Abs() == NoEvents
    {
      slugs, aliases, nextId := map[], map[], 1;
    }

    method SetAlias(oldSlug: Slug, id: Id)
      modifies this`aliases
      ensures aliases == old(aliases)[oldSlug := id]
    {
      aliases := aliases[oldSlug := id];
    }

    method RemoveAlias(oldSlug: Slug)
      modifies this`aliases
      ensures aliases == old(aliases) - {oldSlug}
    {
      aliases := aliases - {oldSlug};
    }

    method RemoveAliasesOf(id: Id)
      modifies this`aliases
      ensures aliases == WithoutEvent(old(aliases), id)
    {
      aliases := map s | s in aliases && aliases[s] != id :: aliases[s];
    }

    /** `valid` stands for the window and limit checks between the key checks and the insert. */
    method CreateEvent(slug: Slug, valid: bool) returns (id: Option<Id>)
      modifies this
      ensures Abs() == Next(old(Abs()), Create(slug, valid))
      ensures id == if Accepts(old(Abs()), Create(slug, valid)) then Some(old(nextId)) else None
      ensures id.Some? <==> ValidKey(slug) && slug !in old(slugs).Values && valid
    {
      if !ValidKey(slug) || (exists j | j in slugs :: slugs[j] == slug) || !valid { return None; }
      id := Some(nextId);
      slugs, nextId := slugs[nextId := slug], nextId + 1;
      RemoveAlias(slug);
    }

    /** `windowOk` stands for assertWindow and the parses after it, which run once the aliases are written. */
    method UpdateEvent(id: Id, slug: Slug, windowOk: bool) returns (ok: bool)
      modifies this
      ensures Abs() == Next(old(Abs()), Rename(id, slug, windowOk))
      ensures id in old(slugs) && slug != old(slugs)[id] ==> ok == Accepts(old(Abs()), Rename(id, slug, windowOk))
      ensures ok <==> id in old(slugs) && ValidKey(slug) && windowOk
                      && (slug == old(slugs)[id] || slug !in old(slugs).Values)
    {
      if id !in slugs || !ValidKey(slug) { return false; }
      var existing := slugs[id];
      if slug != existing {
        if exists j | j in slugs :: slugs[j] == slug && j != id { return false; }
        SetAlias(existing, id);
        RemoveAlias(slug);
      }
      if !windowOk { return false; }
      slugs := slugs[id := slug];
      assert slug == existing ==> slugs == old(slugs);
      return true;
    }

    method DeleteEvent(id: Id) returns (ok: bool)
      modifies this
      ensures Abs() == Next(old(Abs()), Delete(id))
      ensures ok == Accepts(old(Abs()), Delete(id))
    {
      if id !in slugs { return false; }
      RemoveAliasesOf(id);
      slugs := slugs - {id};
      return true;
    }

    /** Live key first, then the alias; `redirectTo` names the key to swap to. */
    method Guide(slug: Slug) returns (row: Option<Id>, redirectTo: Option<Slug>)
      requires forall i, j | i in slugs && j in slugs && slugs[i] == slugs[j] :: i == j
      ensures row == Resolve(Abs(), slug)
      ensures redirectTo == if row.Some? && slugs[row.value] != slug then Some(slugs[row.value]) else None
    {
      row, redirectTo := None, None;
      if id :| id in slugs && slugs[id] == slug {
        row := Some(id);
      } else if slug in aliases {
        var target := aliases[slug];
        if target in slugs && slugs[target] != slug {
          row, redirectTo := Some(target), Some(slugs[target]);
        }
      }
    }
  }
}
