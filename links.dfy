/**
 * The link store and the code allocator (src/lib/links.ts).
 *
 * Prisma's `link` table becomes a map from code to row held by a `LinkStore` object;
 * the map's keys are the table's unique index on `code`.  Prisma's own id and clock
 * become the store's id counter and a caller-supplied `now`.
 */
module Links {
  import opened Wrappers
  import opened Code
  import opened Records
  import opened Sorting

  /** `findAvailableCode` tries at most this many candidates. */
  const AttemptBudget: nat := 5

  const ExhaustedMessage: string := "Could not generate a unique code. Please specify one manually."

  /** Why a `createLink` call failed: Prisma's P2002 or any other thrown error. */
  datatype CreateError = UniqueViolation | Failed(message: string)

  /** Prisma's P2025: `delete`/`update` found no row with that code. */
  datatype StoreError = RecordNotFound

  /** The length tried on a given attempt: `MIN + attempt % (MAX - MIN + 1)`. */
  function AttemptLength(attempt: nat): (len: nat)
    ensures MinCodeLength <= len <= MaxCodeLength
  {
    MinCodeLength + attempt % (MaxCodeLength - MinCodeLength + 1)
  }

  /** The five attempts use lengths 6, 7, 8, 6, 7. */
  lemma LengthSchedule()
    ensures [AttemptLength(0), AttemptLength(1), AttemptLength(2), AttemptLength(3), AttemptLength(4)] == [6, 7, 8, 6, 7]
  {
  }

  /** The candidate generated on an attempt; `draws(attempt)` is that call's random source. */
  function Candidate(draws: nat -> Oracle, attempt: nat): string {
    Spelled(draws(attempt), AttemptLength(attempt))
  }

  /** The first attempt at or after `from`, within budget, whose candidate is not taken. */
  function FirstFree(taken: set<string>, draws: nat -> Oracle, from: nat): (r: Option<nat>)
    ensures r.Some? ==> from <= r.value < AttemptBudget && Candidate(draws, r.value) !in taken
    decreases AttemptBudget - from
  {
    if from >= AttemptBudget then None
    else if Candidate(draws, from) !in taken then Some(from)
    else FirstFree(taken, draws, from + 1)
  }

  /** `findAvailableCode` as a value: the first free candidate, or the exhaustion error. */
  function Allocate(taken: set<string>, draws: nat -> Oracle): (r: Result<string, string>)
    ensures r.Success? ==> r.value !in taken && IsValidCode(r.value)
    ensures r.Failure? ==> r.error == ExhaustedMessage
  {
    match FirstFree(taken, draws, 0)
    case Some(i) =>
      GeneratedIsValid(draws(i), AttemptLength(i));
      Success(Candidate(draws, i))
    case None => Failure(ExhaustedMessage)
  }

  /** How many existence lookups `findAvailableCode` performs. */
  function Lookups(taken: set<string>, draws: nat -> Oracle): nat {
    match FirstFree(taken, draws, 0)
    case Some(i) => i + 1
    case None => AttemptBudget
  }

  lemma {:induction false} FirstFreeIsFirst(taken: set<string>, draws: nat -> Oracle, from: nat)
    ensures match FirstFree(taken, draws, from)
      case Some(i) =>
        && from <= i < AttemptBudget
        && Candidate(draws, i) !in taken
        && forall k :: from <= k < i ==> Candidate(draws, k) in taken
      case None =>
        forall k :: from <= k < AttemptBudget ==> Candidate(draws, k) in taken
    decreases AttemptBudget - from
  {
    if from < AttemptBudget && Candidate(draws, from) in taken {
      FirstFreeIsFirst(taken, draws, from + 1);
    }
  }

  /** The allocator returns the first untaken candidate and never a taken code; it
      performs at most five lookups and fails after exactly five when all are taken. */
  lemma AllocateSpec(taken: set<string>, draws: nat -> Oracle)
    ensures 1 <= Lookups(taken, draws) <= AttemptBudget
    ensures Allocate(taken, draws).Success? ==>
      && var code := Allocate(taken, draws).value;
      && code == Candidate(draws, Lookups(taken, draws) - 1)
      && code !in taken
      && IsValidCode(code)
      && forall k :: 0 <= k < Lookups(taken, draws) - 1 ==> Candidate(draws, k) in taken
    ensures Allocate(taken, draws).Failure? <==>
      forall k :: 0 <= k < AttemptBudget ==> Candidate(draws, k) in taken
    ensures Allocate(taken, draws).Failure? ==>
      Allocate(taken, draws).error == ExhaustedMessage && Lookups(taken, draws) == AttemptBudget
  {
    FirstFreeIsFirst(taken, draws, 0);
    match FirstFree(taken, draws, 0)
    case Some(i) =>
      GeneratedIsValid(draws(i), AttemptLength(i));
    case None =>
  }

  /** The store invariant: each row sits under its own code, and ids are unique and
      below the next id to hand out. */
  ghost predicate WellFormed(links: map<string, Link>, nextId: nat) {
    && (forall c :: c in links ==> links[c].code == c && links[c].id < nextId)
    && (forall c, d :: c in links && d in links && c != d ==> links[c].id != links[d].id)
  }

  /** A fresh row as `prisma.link.create` materializes it. */
  function NewRow(id: nat, code: string, url: string, now: Timestamp): Link {
    Link(id, code, url, 0, None, now, now)
  }

  /** The store after a `createLink` call, with the call's outcome. */
  datatype Created = Created(result: Result<LinkDTO, CreateError>, links: map<string, Link>, nextId: nat)

  /** `createLink(url, requestedCode)`: the requested code verbatim, else an allocated one,
      then an insert that the unique index on `code` may refuse. */
  function CreateResult(links: map<string, Link>, nextId: nat, url: string, requested: Option<string>,
                        draws: nat -> Oracle, now: Timestamp): Created
  {
    var code := match requested
      case Some(c) => Success(c)
      case None => Allocate(links.Keys, draws);
    if code.Failure? then Created(Failure(Failed(code.error)), links, nextId)
    else if code.value in links then Created(Failure(UniqueViolation), links, nextId)
    else
      var row := NewRow(nextId, code.value, url, now);
      Created(Success(Serialize(row)), links[code.value := row], nextId + 1)
  }

  /** A requested code is used verbatim: either exactly one row is added under it, binding
      the url, or the code is taken and the store is left unchanged. */
  lemma CreateWithRequestedCode(links: map<string, Link>, nextId: nat, url: string, code: string,
                                draws: nat -> Oracle, now: Timestamp)
    ensures var o := CreateResult(links, nextId, url, Some(code), draws, now);
      && (code in links <==> o.result == Failure(UniqueViolation))
      && (code in links ==> o.links == links && o.nextId == nextId)
      && (code !in links ==>
          && o.result.Success?
          && o.result.value.code == code && o.result.value.url == url
          && o.result.value.clickCount == 0 && o.result.value.lastClicked == None
          && o.links.Keys == links.Keys + {code}
          && |o.links| == |links| + 1
          && (forall d :: d in links ==> o.links[d] == links[d])
          && Serialize(o.links[code]) == o.result.value)
  {
    var o := CreateResult(links, nextId, url, Some(code), draws, now);
    if code !in links {
      assert o.links.Keys == links.Keys + {code};
    }
  }

  /** Without a requested code the allocator decides: a fresh, well-shaped code is
      inserted, or the exhaustion error is raised and nothing is written. */
  lemma CreateWithGeneratedCode(links: map<string, Link>, nextId: nat, url: string,
                                draws: nat -> Oracle, now: Timestamp)
    ensures var o := CreateResult(links, nextId, url, None, draws, now);
      && o.result != Failure(UniqueViolation)
      && (o.result.Failure? <==> forall k :: 0 <= k < AttemptBudget ==> Candidate(draws, k) in links)
      && (o.result.Failure? ==> o.result == Failure(Failed(ExhaustedMessage)) && o.links == links)
      && (o.result.Success? ==>
          var code := o.result.value.code;
          && code !in links
          && IsValidCode(code)
          && o.result.value.url == url
          && o.result.value.clickCount == 0 && o.result.value.lastClicked == None
          && code in o.links && Serialize(o.links[code]) == o.result.value
          && o.links.Keys == links.Keys + {code}
          && (forall d :: d in links ==> o.links[d] == links[d]))
  {
    AllocateSpec(links.Keys, draws);
  }

  /** Every creation keeps the store invariant, so codes and ids stay unique. */
  lemma CreatePreservesWellFormed(links: map<string, Link>, nextId: nat, url: string,
                                  requested: Option<string>, draws: nat -> Oracle, now: Timestamp)
    requires WellFormed(links, nextId)
    ensures var o := CreateResult(links, nextId, url, requested, draws, now);
      WellFormed(o.links, o.nextId) && o.nextId >= nextId
  {
  }

  /** The row after one recorded click. */
  function Clicked(link: Link, now: Timestamp): Link {
    link.(clickCount := link.clickCount + 1, lastClicked := Some(now), updatedAt := now)
  }

  /** The API rows of the given codes of a store. */
  ghost function RowsOf(links: map<string, Link>, codes: set<string>): set<LinkDTO>
    requires codes <= links.Keys
  {
    set c | c in codes :: Serialize(links[c])
  }

  /** The API rows of a store, one per code. */
  ghost function Rows(links: map<string, Link>): set<LinkDTO> {
    RowsOf(links, links.Keys)
  }

  /** Adding one more code adds its row, which was not there before. */
  lemma RowsOfStep(links: map<string, Link>, nextId: nat, codes: set<string>, c: string)
    requires WellFormed(links, nextId) && codes <= links.Keys && c in links && c !in codes
    ensures Serialize(links[c]) !in RowsOf(links, codes)
    ensures RowsOf(links, codes + {c}) == RowsOf(links, codes) + {Serialize(links[c])}
  {
  }

  /** Appending the next code's row to rows collected so far keeps them the rows of the codes seen. */
  lemma AccumulateRow(links: map<string, Link>, nextId: nat, codes: set<string>, c: string, acc: seq<LinkDTO>)
    requires WellFormed(links, nextId) && codes <= links.Keys && c in links && c !in codes
    requires multiset(acc) == multiset(RowsOf(links, codes))
    ensures multiset(acc + [Serialize(links[c])]) == multiset(RowsOf(links, codes + {c}))
  {
    RowsOfStep(links, nextId, codes, c);
  }

  /** `getAllLinks`: each row once, newest first. */
  ghost predicate IsNewestFirstListing(links: map<string, Link>, s: seq<LinkDTO>) {
    && multiset(s) == multiset(Rows(links))
    && SortedBy(Recent, LexLeq, s)
  }

  /** A newest-first listing names every row of the store exactly once and nothing else. */
  lemma ListingIsExact(links: map<string, Link>, s: seq<LinkDTO>)
    requires IsNewestFirstListing(links, s)
    ensures forall c :: c in links ==> multiset(s)[Serialize(links[c])] == 1
    ensures forall x :: x in s ==> x in Rows(links)
    ensures forall i, j :: 0 <= i < j < |s| ==> s[i].createdAt >= s[j].createdAt
  {
    forall c | c in links ensures multiset(s)[Serialize(links[c])] == 1 {
      assert Serialize(links[c]) in Rows(links);
    }
    forall x | x in s ensures x in Rows(links) {
      assert x in multiset(s);
    }
  }

  class LinkStore {
    var links: map<string, Link>
    var nextId: nat

    ghost predicate Valid()
      reads this
    {
      WellFormed(links, nextId)
    }

    constructor ()
      ensures Valid()
      ensures links == map[] && nextId == 0
    {
      links := map[];
      nextId := 0;
    }

    /** `getLinkByCode`: the serialized row, or null. */
    function GetLinkByCode(code: string): (r: Option<LinkDTO>)
      reads this
      ensures r.Some? <==> code in links
      ensures r.Some? ==> r.value == Serialize(links[code]) && r.value.code == links[code].code
    {
      if code in links then Some(Serialize(links[code])) else None
    }

    /** `findAvailableCode`: up to five generate-and-look-up rounds. */
    method FindAvailableCode(draws: nat -> Oracle) returns (r: Result<string, string>, ghost lookups: nat)
      ensures r == Allocate(links.Keys, draws) && lookups == Lookups(links.Keys, draws)
      ensures r.Success? ==> r.value !in links && IsValidCode(r.value)
      ensures r.Failure? ==> r.error == ExhaustedMessage && lookups == AttemptBudget
    {
      AllocateSpec(links.Keys, draws);
      var attempt: nat := 0;
      lookups := 0;
      while attempt < AttemptBudget
        invariant attempt <= AttemptBudget && lookups == attempt
        invariant FirstFree(links.Keys, draws, attempt) == FirstFree(links.Keys, draws, 0)
      {
        var len := MinCodeLength + attempt % (MaxCodeLength - MinCodeLength + 1);
        var candidate := GenerateCode(Some(len), draws(attempt));
        assert candidate == Candidate(draws, attempt);
        lookups := lookups + 1;
        var existing := GetLinkByCode(candidate);
        if existing == None {
          return Success(candidate), lookups;
        }
        attempt := attempt + 1;
      }
      return Failure(ExhaustedMessage), lookups;
    }

    /** `createLink(url, requestedCode?)`. */
    method CreateLink(url: string, requestedCode: Option<string>, draws: nat -> Oracle, now: Timestamp)
      returns (r: Result<LinkDTO, CreateError>)
      requires Valid()
      modifies this
      ensures Valid()
      ensures var o := CreateResult(old(links), old(nextId), url, requestedCode, draws, now);
        r == o.result && links == o.links && nextId == o.nextId
    {
      CreatePreservesWellFormed(links, nextId, url, requestedCode, draws, now);
      var code: string;
      match requestedCode {
        case Some(c) =>
          code := c;
        case None =>
          var found, _ := FindAvailableCode(draws);
          if found.Failure? {
            return Failure(Failed(found.error));
          }
          code := found.value;
      }
      if code in links {
        return Failure(UniqueViolation);
      }
      var row := NewRow(nextId, code, url, now);
      links := links[code := row];
      nextId := nextId + 1;
      r := Success(Serialize(row));
    }

    /** `deleteLink(code)`: a hard delete; Prisma throws P2025 when there is no such row. */
    method DeleteLink(code: string) returns (r: Result<(), StoreError>)
      requires Valid()
      modifies this
      ensures Valid() && nextId == old(nextId)
      ensures r.Success? <==> code in old(links)
      ensures r.Failure? ==> r.error == RecordNotFound
      ensures links == old(links) - {code}
      ensures GetLinkByCode(code) == None
      ensures forall d :: d != code ==> GetLinkByCode(d) == old(GetLinkByCode(d))
    {
      if code !in links {
        return Failure(RecordNotFound);
      }
      links := links - {code};
      r := Success(());
    }

    /** `recordLinkClick(code)`: an atomic `clickCount + 1` that stamps `lastClicked` (and
        Prisma's `updatedAt`) with the current time. */
    method RecordLinkClick(code: string, now: Timestamp) returns (r: Result<LinkDTO, StoreError>)
      requires Valid()
      modifies this
      ensures Valid() && nextId == old(nextId)
      ensures r.Success? <==> code in old(links)
      ensures code in old(links) ==>
        && links == old(links)[code := Clicked(old(links)[code], now)]
        && r.value == Serialize(links[code])
        && links[code].clickCount == old(links)[code].clickCount + 1
        && links[code].lastClicked == Some(now)
        && links[code].id == old(links)[code].id && links[code].url == old(links)[code].url
        && links[code].createdAt == old(links)[code].createdAt
      ensures code !in old(links) ==> r == Failure(RecordNotFound) && links == old(links)
    {
      if code !in links {
        return Failure(RecordNotFound);
      }
      var row := Clicked(links[code], now);
      links := links[code := row];
      r := Success(Serialize(row));
    }

    /** `getAllLinks`: every row, serialized, ordered by `createdAt` descending. */
    method GetAllLinks() returns (s: seq<LinkDTO>)
      requires Valid()
      ensures IsNewestFirstListing(links, s)
    {
      var rest := links.Keys;
      var acc: seq<LinkDTO> := [];
      while rest != {}
        invariant rest <= links.Keys
        invariant multiset(acc) == multiset(RowsOf(links, links.Keys - rest))
        decreases rest
      {
        var c :| c in rest;
        AccumulateRow(links, nextId, links.Keys - rest, c, acc);
        assert links.Keys - (rest - {c}) == (links.Keys - rest) + {c};
        acc := acc + [Serialize(links[c])];
        rest := rest - {c};
      }
      assert links.Keys - rest == links.Keys;
      var a := new LinkDTO[|acc|](i requires 0 <= i < |acc| => acc[i]);
      assert a[..] == acc;
      LexLeqIsTotalPreorder();
      SortInPlace(a, Recent, LexLeq);
      s := a[..];
    }
  }

  /** A store's life as its callers see it: a generated code on an empty store, three
      clicks, deletion, and reuse of the freed code. */
  method Lifecycle(url: string, draws: nat -> Oracle, now: Timestamp)
    returns (code: string, clicks: nat, resolved: string, reused: bool)
    ensures IsValidCode(code)
    ensures clicks == 3 && resolved == url && reused
  {
    var store := new LinkStore();
    CreateWithGeneratedCode(store.links, store.nextId, url, draws, now);
    var created := store.CreateLink(url, None, draws, now);
    code := created.value.code;
    var c1 := store.RecordLinkClick(code, now);
    var c2 := store.RecordLinkClick(code, now + 1);
    var c3 := store.RecordLinkClick(code, now + 2);
    var found := store.GetLinkByCode(code);
    clicks := found.value.clickCount;
    resolved := found.value.url;
    var deleted := store.DeleteLink(code);
    assert store.GetLinkByCode(code) == None;
    var again := store.CreateLink(url, Some(code), draws, now + 3);
    reused := again.Success?;
  }
}
