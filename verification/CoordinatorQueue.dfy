/**
 The keeper's work queue (keeper/src/coordinator/queue.ts): underwater accounts only, one
 entry a user, the most underwater first.
 */
module CoordinatorQueueing {
  import opened Optional

  type User = string

  /** A health snapshot. Negative `mmSurplus` means liquidatable. */
  datatype Health = Health(user: User, balance: int, imRequired: int, mmRequired: int, mmSurplus: int)

  function Compare(a: Health, b: Health): int {
    if a.mmSurplus == b.mmSurplus then 0 else if a.mmSurplus < b.mmSurplus then -1 else 1
  }

  // ── Specification ────────────────────────────────────────────────────────

  ghost predicate Ranked(items: seq<Health>) {
    forall i, j :: 0 <= i < j < |items| ==> items[i].mmSurplus <= items[j].mmSurplus
  }

  ghost predicate OnePerUser(items: seq<Health>) {
    forall i, j :: 0 <= i < j < |items| ==> items[i].user != items[j].user
  }

  ghost predicate WellKept(items: seq<Health>) {
    && Ranked(items) && OnePerUser(items)
    && (forall h :: h in items ==> h.mmSurplus < 0)
  }

  function Without(items: seq<Health>, user: User): seq<Health> {
    if items == [] then []
    else if items[0].user == user then items[1..]
    else [items[0]] + Without(items[1..], user)
  }

  /** In rank order, behind every entry it ties with. */
  function Inserted(items: seq<Health>, h: Health): seq<Health> {
    if items == [] || Compare(h, items[0]) < 0 then [h] + items else [items[0]] + Inserted(items[1..], h)
  }

  function Upserted(items: seq<Health>, h: Health): seq<Health> {
    if h.mmSurplus >= 0 then Without(items, h.user) else Inserted(Without(items, h.user), h)
  }

  function UpsertedAll(items: seq<Health>, hs: seq<Health>): seq<Health>
    decreases |hs|
  {
    if hs == [] then items else UpsertedAll(Upserted(items, hs[0]), hs[1..])
  }

  // ── What the operations keep ─────────────────────────────────────────────

  /** The head ranks before the rest and belongs to none of their users. */
  ghost predicate Leads(h: Health, rest: seq<Health>) {
    h.mmSurplus < 0 && forall k :: k in rest ==> h.mmSurplus <= k.mmSurplus && h.user != k.user
  }

  lemma {:induction false} WellKeptCons(h: Health, rest: seq<Health>)
    ensures WellKept([h] + rest) <==> Leads(h, rest) && WellKept(rest)
  {
    hide Leads, WellKept;
    if WellKept([h] + rest) {
      TailIsKept(h, rest);
    }
    if Leads(h, rest) && WellKept(rest) {
      LeadIsKept(h, rest);
    }
  }

  lemma {:induction false} TailIsKept(h: Health, rest: seq<Health>)
    requires WellKept([h] + rest)
    ensures Leads(h, rest) && WellKept(rest)
  {
    var items := [h] + rest;
    assert forall i :: 0 <= i < |rest| ==> items[i + 1] == rest[i];
    assert items[0] == h && h in items && forall k :: k in rest ==> k in items;
    assert Ranked(rest) && OnePerUser(rest);
    forall k | k in rest ensures h.mmSurplus <= k.mmSurplus && h.user != k.user {
      var i :| 0 <= i < |rest| && rest[i] == k;
      assert items[0] == h && items[i + 1] == k;
    }
  }

  lemma {:induction false} LeadIsKept(h: Health, rest: seq<Health>)
    requires Leads(h, rest) && WellKept(rest)
    ensures WellKept([h] + rest)
  {
    var items := [h] + rest;
    forall i, j | 0 <= i < j < |items| ensures items[i].mmSurplus <= items[j].mmSurplus &&
      items[i].user != items[j].user {
      assert items[j] == rest[j - 1] && rest[j - 1] in rest;
    }
  }

  lemma {:induction false} WithoutKeeps(items: seq<Health>, user: User)
    requires WellKept(items)
    ensures WellKept(Without(items, user))
    ensures forall h :: h in Without(items, user) <==> h in items && h.user != user
  {
    hide WellKept;
    if items == [] {
      assert Without(items, user) == items;
    } else {
      var head, rest := items[0], items[1..];
      assert items == [head] + rest;
      WellKeptCons(head, rest);
      WithoutKeeps(rest, user);
      WellKeptCons(head, Without(rest, user));
    }
  }

  lemma {:induction false} InsertedKeeps(items: seq<Health>, h: Health)
    requires WellKept(items) && h.mmSurplus < 0 && forall k :: k in items ==> k.user != h.user
    ensures WellKept(Inserted(items, h))
    ensures forall k :: k in Inserted(items, h) <==> k == h || k in items
    ensures |Inserted(items, h)| == |items| + 1
  {
    hide WellKept;
    if items == [] {
      WellKeptCons(h, items);
      assert Inserted(items, h) == [h] + items;
    } else {
      var head, rest := items[0], items[1..];
      assert items == [head] + rest;
      WellKeptCons(head, rest);
      if Compare(h, head) < 0 {
        WellKeptCons(h, items);
      } else {
        assert forall k :: k in rest ==> k in items;
        InsertedKeeps(rest, h);
        WellKeptCons(head, Inserted(rest, h));
      }
    }
  }

  /** An upsert replaces the user's entry by the snapshot, or drops it when that is healthy. */
  lemma {:induction false} UpsertKeeps(items: seq<Health>, h: Health)
    requires WellKept(items)
    ensures WellKept(Upserted(items, h))
    ensures forall k :: k in Upserted(items, h) <==> (k == h && h.mmSurplus < 0) || (k in items && k.user != h.user)
  {
    WithoutKeeps(items, h.user);
    if h.mmSurplus < 0 {
      InsertedKeeps(Without(items, h.user), h);
    }
  }

  lemma {:induction false} UpsertAllKeeps(items: seq<Health>, hs: seq<Health>)
    requires WellKept(items)
    ensures WellKept(UpsertedAll(items, hs))
    decreases |hs|
  {
    if hs != [] {
      UpsertKeeps(items, hs[0]);
      UpsertAllKeeps(Upserted(items, hs[0]), hs[1..]);
    }
  }

  /** A snapshot goes in front of the accounts strictly less under water, and behind every tie. */
  lemma {:induction false} InsertedBehindTies(items: seq<Health>, h: Health) returns (at: nat)
    requires Ranked(items)
    ensures at <= |items| && Inserted(items, h) == items[..at] + [h] + items[at..]
    ensures forall i :: 0 <= i < at ==> items[i].mmSurplus <= h.mmSurplus
    ensures forall i :: at <= i < |items| ==> h.mmSurplus < items[i].mmSurplus
  {
    if items == [] || Compare(h, items[0]) < 0 {
      at := 0;
      assert [h] + items == items[..0] + [h] + items[0..];
    } else {
      var rest := items[1..];
      var before := InsertedBehindTies(rest, h);
      at := before + 1;
      assert [items[0]] + (rest[..before] + [h] + rest[before..]) == items[..at] + [h] + items[at..];
      assert forall i :: 0 < i < |items| ==> items[i] == rest[i - 1];
    }
  }

  // ── The latest snapshot wins ─────────────────────────────────────────────

  /** The last snapshot of a user in a batch. */
  function LatestOf(hs: seq<Health>, user: User): Option<Health> {
    if hs == [] then None
    else
      var later := LatestOf(hs[1..], user);
      if later.Some? then later else if hs[0].user == user then Some(hs[0]) else None
  }

  /** After a batch a user is queued exactly with the last snapshot taken of it, if that is underwater. */
  lemma {:induction false} BatchKeepsLatest(items: seq<Health>, hs: seq<Health>, k: Health)
    requires WellKept(items)
    ensures k in UpsertedAll(items, hs) <==>
              match LatestOf(hs, k.user) { case Some(h) => k == h && h.mmSurplus < 0 case None => k in items }
    decreases |hs|
  {
    hide WellKept;
    if hs != [] {
      UpsertKeeps(items, hs[0]);
      BatchKeepsLatest(Upserted(items, hs[0]), hs[1..], k);
      LatestIsOfUser(hs[1..], k.user);
    }
  }

  lemma {:induction false} LatestIsOfUser(hs: seq<Health>, user: User)
    ensures var r := LatestOf(hs, user); r.Some? ==> r.value in hs && r.value.user == user
    ensures LatestOf(hs, user) == None ==> forall h :: h in hs ==> h.user != user
  {
    if hs != [] {
      LatestIsOfUser(hs[1..], user);
      assert hs == [hs[0]] + hs[1..];
    }
  }

  // ── The queue ────────────────────────────────────────────────────────────

  lemma WithoutPast(items: seq<Health>, at: nat, user: User)
    requires at < |items| && items[at].user != user
    ensures items[..at] + Without(items[at..], user) == items[..at + 1] + Without(items[at + 1..], user)
  {
    assert items[at..][1..] == items[at + 1..];
    assert Without(items[at..], user) == [items[at]] + Without(items[at + 1..], user);
    assert items[..at] + [items[at]] == items[..at + 1];
  }

  lemma InsertedPast(items: seq<Health>, at: nat, h: Health)
    requires at < |items| && Compare(h, items[at]) >= 0
    ensures items[..at] + Inserted(items[at..], h) == items[..at + 1] + Inserted(items[at + 1..], h)
  {
    assert items[at..][1..] == items[at + 1..];
    assert Inserted(items[at..], h) == [items[at]] + Inserted(items[at + 1..], h);
    assert items[..at] + [items[at]] == items[..at + 1];
  }

  class CoordinatorQueue {
    var items: seq<Health>

    ghost predicate Valid()
      reads this
    {
      WellKept(items)
    }

    constructor ()
      ensures Valid() && items == []
    {
      items := [];
    }

    method Upsert(health: Health) returns (queued: bool)
      requires Valid()
      modifies this
      ensures Valid()
      ensures items == Upserted(old(items), health)
      ensures queued <==> exists h :: h in items && h.user == health.user
    {
      UpsertKeeps(items, health);
      RemoveUser(health.user);
      if health.mmSurplus >= 0 { return false; }
      var insertAt := FindInsertIndex(health);
      items := items[..insertAt] + [health] + items[insertAt..];
      assert health in items;
      queued := true;
    }

    method Remove(user: User)
      requires Valid()
      modifies this
      ensures Valid() && items == Without(old(items), user)
    {
      WithoutKeeps(items, user);
      RemoveUser(user);
    }

    /** Takes the most underwater entry. */
    method Pop() returns (head: Option<Health>)
      requires Valid()
      modifies this
      ensures Valid()
      ensures head == None <==> old(items) == []
      ensures head == None ==> items == []
      ensures head.Some? ==> old(items) == [head.value] + items && forall h :: h in old(items) ==>
              head.value.mmSurplus <= h.mmSurplus
    {
      if items == [] { return None; }
      head := Some(items[0]);
      items := items[1..];
    }

    method RemoveUser(user: User)
      modifies this
      ensures items == Without(old(items), user)
    {
      var idx := 0;
      while idx < |items| && items[idx].user != user
        invariant idx <= |items| && items == old(items)
        invariant Without(items, user) == items[..idx] + Without(items[idx..], user)
      {
        WithoutPast(items, idx, user);
        idx := idx + 1;
      }
      if idx < |items| {
        assert items[idx..][1..] == items[idx + 1..];
        assert Without(items[idx..], user) == items[idx + 1..];
        items := items[..idx] + items[idx + 1..];
      } else {
        assert items[..idx] + Without(items[idx..], user) == items;
      }
    }

    method FindInsertIndex(health: Health) returns (at: nat)
      ensures at <= |items|
      ensures items[..at] + [health] + items[at..] == Inserted(items, health)
    {
      at := 0;
      while at < |items| && Compare(health, items[at]) >= 0
        invariant at <= |items|
        invariant Inserted(items, health) == items[..at] + Inserted(items[at..], health)
      {
        InsertedPast(items, at, health);
        at := at + 1;
      }
      assert Inserted(items[at..], health) == [health] + items[at..];
      assert items[..at] + ([health] + items[at..]) == items[..at] + [health] + items[at..];
    }
  }
}
