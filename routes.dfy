/**
 * The collection route of the admin API (src/app/api/links/route.ts): `GET` lists the
 * store and `POST` validates a body, creates a link and maps the outcome to a status.
 */
module Routes {
  import opened Wrappers
  import opened Code
  import opened Records
  import opened Validators
  import opened Links

  /** A POST request: its body is JSON (parsed), or `request.json()` throws a SyntaxError. */
  datatype Request = Unreadable(syntaxError: string) | Json(body: Body)

  datatype ResponseBody =
    | Data(link: LinkDTO)
    | DataList(links: seq<LinkDTO>)
    | Errors(fieldErrors: FieldErrors)
    | Message(message: string)

  datatype Response = Response(status: nat, body: ResponseBody)

  /** How far a POST got: the body could not be read, did not validate, or was handed
      to `createLink`, which returned or threw. */
  datatype PostOutcome =
    | BodyUnreadable(message: string)
    | Invalid(errors: FieldErrors)
    | Attempted(result: Result<LinkDTO, CreateError>)

  const ConflictMessage: string := "Code already exists. Try another."

  /** The branch cascade of `POST`: 400 on validation errors, 201 on success, 409 on P2002,
      500 with the error's message on anything else caught. */
  function Respond(outcome: PostOutcome): (resp: Response)
    ensures resp.status == 400 <==> outcome.Invalid?
    ensures resp.status == 201 <==> outcome.Attempted? && outcome.result.Success?
    ensures resp.status == 409 <==> outcome == Attempted(Failure(UniqueViolation))
    ensures outcome == Attempted(Failure(UniqueViolation)) ==> resp.body == Message(ConflictMessage)
    ensures resp.status == 500 <==> outcome.BodyUnreadable? || (outcome.Attempted? && outcome.result.Failure? && outcome.result.error.Failed?)
    ensures outcome.Invalid? ==> resp.body == Errors(outcome.errors)
    ensures outcome.Attempted? && outcome.result.Success? ==> resp.body == Data(outcome.result.value)
    ensures outcome.BodyUnreadable? ==> resp.body == Message(outcome.message)
    ensures outcome.Attempted? && outcome.result.Failure? && outcome.result.error.Failed? ==>
      resp.body == Message(outcome.result.error.message)
  {
    match outcome
    case BodyUnreadable(m) => Response(500, Message(m))
    case Invalid(errors) => Response(400, Errors(errors))
    case Attempted(Success(link)) => Response(201, Data(link))
    case Attempted(Failure(UniqueViolation)) => Response(409, Message(ConflictMessage))
    case Attempted(Failure(Failed(m))) => Response(500, Message(m))
  }

  /** Allocator exhaustion is not a conflict: it surfaces as a 500 carrying its message. */
  lemma ExhaustionIsServerError(links: map<string, Link>, nextId: nat, url: string,
                                draws: nat -> Oracle, now: Timestamp)
    requires forall k :: 0 <= k < AttemptBudget ==> Candidate(draws, k) in links
    ensures Respond(Attempted(CreateResult(links, nextId, url, None, draws, now).result))
      == Response(500, Message(ExhaustedMessage))
  {
    CreateWithGeneratedCode(links, nextId, url, draws, now);
  }

  /** A taken explicit code is the one way to get a 409. */
  lemma TakenCodeIsConflict(links: map<string, Link>, nextId: nat, url: string, code: string,
                            draws: nat -> Oracle, now: Timestamp)
    ensures Respond(Attempted(CreateResult(links, nextId, url, Some(code), draws, now).result)).status == 409
      <==> code in links
  {
    CreateWithRequestedCode(links, nextId, url, code, draws, now);
  }

  /** `GET`: the store listing under `data`. */
  method Get(store: LinkStore) returns (resp: Response)
    requires store.Valid()
    ensures resp.status == 200 && resp.body.DataList?
    ensures IsNewestFirstListing(store.links, resp.body.links)
  {
    var links := store.GetAllLinks();
    resp := Response(200, DataList(links));
  }

  /** `POST`: `createLink` runs only on a valid body, and it receives the validated
      (trimmed) code rather than the raw field. */
  method Post(store: LinkStore, request: Request, isUrl: string -> bool, draws: nat -> Oracle, now: Timestamp)
    returns (resp: Response)
    requires store.Valid()
    modifies store
    ensures store.Valid()
    ensures request.Unreadable? ==>
      resp == Response(500, Message(request.syntaxError)) && unchanged(store)
    ensures request.Json? && Validate(request.body, isUrl).Failure? ==>
      resp == Response(400, Errors(Validate(request.body, isUrl).error)) && unchanged(store)
    ensures request.Json? && Validate(request.body, isUrl).Success? ==>
      var input := Validate(request.body, isUrl).value;
      var o := CreateResult(old(store.links), old(store.nextId), input.url, input.code, draws, now);
      && store.links == o.links && store.nextId == o.nextId
      && resp == Respond(Attempted(o.result))
  {
    match request {
      case Unreadable(message) =>
        return Respond(BodyUnreadable(message));
      case Json(body) =>
        var parsed := Validate(body, isUrl);
        if parsed.Failure? {
          return Respond(Invalid(parsed.error));
        }
        var link := store.CreateLink(parsed.value.url, parsed.value.code, draws, now);
        resp := Respond(Attempted(link));
    }
  }
}
