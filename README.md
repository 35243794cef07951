# Tinylink core in Dafny

Tinylink is a URL shortener. A link binds a short code (6 to 8 ASCII letters or
digits) to a target URL. The store records how often each code was followed and
when it was last followed. This project models and proves properties of the
server-side core:

- `src/lib/code.ts`: the code charset, random code generation and the code-shape
  check. Modelled in `code.dfy`, module `Code`.
- `src/lib/links.ts`: the link store (list, look up, create, delete, record a click)
  and the allocator that retries random codes. Modelled in `links.dfy`, module
  `Links`, with the row types in `records.dfy`, module `Records`. The store is a
  class `LinkStore` whose `links` map and id counter the methods update in place.
- `src/lib/validators.ts`: the request-body schema (`createLinkSchema`). Modelled in
  `validators.dfy`, module `Validators`, including JavaScript's `trim`.
- `src/app/api/links/route.ts`: the collection route, `GET` and `POST`, with the
  mapping from outcomes to HTTP statuses. Modelled in `routes.dfy`, module `Routes`.
- `src/lib/utils.ts`: short-URL joining and the empty-timestamp placeholder.
  Modelled in `utils.dfy`, module `Utils`.
- The `filtered` computation of `src/components/links-table.tsx`: copy, sort by
  the chosen key, filter by the normalized query. Modelled in `links_table.dfy`,
  module `LinksTable`, over the in-place sort of `sorting.dfy`, module `Sorting`.

The random source is a parameter. `Oracle` gives the charset index drawn for each
character. `draws: nat -> Oracle` gives one oracle per allocator attempt. The clock
is a `now: Timestamp` argument. zod's URL check is a predicate parameter `isUrl`.
`localeCompare` on codes is a parameter `codeLeq` that must be a total preorder;
`Sorting.LexLeq` is one concrete instance.

## Model

| member | source | states |
|---|---|---|
| Code.CharsetIsAlphanumeric | src/lib/code.ts:1 | The charset has 62 pairwise distinct characters, and a character is in it exactly when it is an ASCII letter or digit. |
| Code.GenerateCode | src/lib/code.ts:6-13 | The code has the requested length (6 when none is given, 0 for a negative length). Character i is the charset character at the i-th drawn index. |
| Code.GeneratedIsValid | src/lib/code.ts:6-18 | A code generated at any length from 6 to 8 passes `isValidCode`, whatever the draws. |
| Code.IsValidCode | src/lib/code.ts:15-18 | Defines the regex `^[A-Za-z0-9]{6,8}$`, anchored at both ends: length 6 to 8, and every character an ASCII letter or digit. `ValidCodeShape` and `ShapeRejection` state its consequences. |
| Code.ValidCodeShape | src/lib/code.ts:15-18 | `isValidCode` accepts exactly the strings of length 6 to 8 made only of ASCII letters and digits. |
| Code.ShapeRejection | src/lib/code.ts:15-18 | Lengths 5 and 9 are rejected, and so is any string holding a slash, a space or a non-ASCII character. |
| Records.Serialize | src/lib/links.ts:15-22 | Every field of the row carries over to the DTO, and a missing `lastClicked` stays missing (null). |
| Records.SerializeInjective | src/lib/links.ts:15-22 | Distinct rows serialize to distinct DTOs: serializing loses nothing. |
| Links.AttemptLength | src/lib/links.ts:56 | The length tried on every attempt is between 6 and 8. |
| Links.LengthSchedule | src/lib/links.ts:55-56 | The five attempts try lengths 6, 7, 8, 6, 7 in that order. |
| Links.FirstFree | src/lib/links.ts:54-63 | A found attempt lies at or after the starting attempt and within the five-attempt budget, and its candidate is not taken. |
| Links.Allocate | src/lib/links.ts:53-65 | A returned code is not taken and passes `isValidCode`. A failure carries the exhaustion message. |
| Links.AllocateSpec | src/lib/links.ts:53-65 | 1 to 5 lookups are made. A returned code is the first untaken candidate: it is not taken, it passes `isValidCode`, and every earlier candidate was taken. The allocator fails exactly when all five candidates are taken, and then it reports the exhaustion message after five lookups. |
| Links.CreateResult | src/lib/links.ts:40-51 | Defines `createLink`: the requested code verbatim, else an allocated one; then an insert that the unique index on `code` refuses for a taken code. The `Create…` lemmas state its properties. |
| Links.CreateWithRequestedCode | src/lib/links.ts:40-51 | A requested code is used verbatim. If it is taken, the insert fails with the unique-index violation and the store is unchanged. Otherwise exactly one row is added under it, with the url, zero clicks and no last click; other rows are unchanged, and the returned DTO is the stored row. |
| Links.CreateWithGeneratedCode | src/lib/links.ts:40-51 | Without a requested code there is never a unique-index violation. Creation fails, with the exhaustion message and no write, exactly when all five candidates are taken. Otherwise the new code is fresh and valid, and exactly one row is added under it: it binds the url, has zero clicks and no last click, and equals the returned DTO. Other rows are unchanged. |
| Links.CreatePreservesWellFormed | src/lib/links.ts:40-51 | Creation keeps the store invariant: each row sits under its own code, and ids are unique. |
| Links.Clicked | src/lib/links.ts:74-80 | Defines the row after a click: the count plus one, and `lastClicked` and `updatedAt` set to the click time. `RecordLinkClick` states the store update. |
| Links.ListingIsExact | src/lib/links.ts:24-31 | A newest-first listing holds every stored row exactly once and nothing else, ordered by `createdAt` descending. |
| Links.LinkStore.GetLinkByCode | src/lib/links.ts:33-38 | Returns a row exactly when the code is stored, and then it is that row serialized. |
| Links.LinkStore.FindAvailableCode | src/lib/links.ts:53-65 | The loop computes `Allocate` with `Lookups` lookups: a fresh valid code, or the exhaustion message after five lookups. |
| Links.LinkStore.CreateLink | src/lib/links.ts:40-51 | The result and the new map and counter are those of `CreateResult` on the old state; the invariant is kept. |
| Links.LinkStore.DeleteLink | src/lib/links.ts:67-71 | Succeeds exactly when the code was stored, and otherwise fails with record-not-found. The code's entry is removed and no other lookup changes. |
| Links.LinkStore.RecordLinkClick | src/lib/links.ts:73-82 | On a stored code, the click count goes up by exactly one and `lastClicked` becomes `now`; id, url and `createdAt` are kept, and the serialized row is returned. On a missing code it fails with record-not-found and changes nothing. |
| Links.LinkStore.GetAllLinks | src/lib/links.ts:24-31 | Returns every row of the store once, serialized, ordered by `createdAt` descending. |
| Links.Lifecycle | src/lib/links.ts:40-82 | On a fresh store: a generated code is valid, three clicks read back as 3, the code resolves to its url, and once deleted the code can be requested again. |
| Sorting.SortInPlace | src/components/links-table.tsx:30-39 | The array ends sorted by the chosen key and is a permutation of its old contents. |
| Sorting.Before | src/components/links-table.tsx:31-38 | Defines the three comparators as "a may precede b": `b.clickCount - a.clickCount <= 0`, `codeLeq(a.code, b.code)`, and `b.createdAt - a.createdAt <= 0`. |
| Sorting.BeforeTransitive | src/components/links-table.tsx:30-39 | The three comparators (clicks descending, code by `codeLeq`, `createdAt` descending) are transitive. |
| Sorting.BeforeTotal | src/components/links-table.tsx:30-39 | Any two links are comparable under each of the three comparators. |
| Sorting.LexLeqIsTotalPreorder | src/components/links-table.tsx:35 | Code-point lexicographic order is a valid `codeLeq`. |
| Validators.Trim | src/lib/validators.ts:11 | The trimmed string neither starts nor ends with whitespace. It is empty for an all-whitespace input, and a string without surrounding whitespace is unchanged. |
| Validators.TrimmedSlice | src/lib/validators.ts:11 | The trimmed string is a slice `s[a..b]` of the input, and everything cut off on either side is whitespace. |
| Validators.ValidateUrl | src/lib/validators.ts:5-8 | The url is accepted exactly when it is a non-empty string that `isUrl` accepts, and the output is the string unchanged. A missing url gives "Required". An empty string carries "URL is required", and a string `isUrl` rejects carries the URL message; both can appear together. |
| Validators.ValidateCode | src/lib/validators.ts:9-16 | The code is accepted exactly when it is missing, is `""`, or trims to a valid code. An accepted code is the trimmed string and passes `isValidCode`; "no code" comes only from a missing field or `""`. A rejection carries "Invalid input" for a non-string and the shape message otherwise. |
| Validators.Validate | src/lib/validators.ts:4-17 | Parsing succeeds exactly when the body is an object whose url and code fields both validate, and the output holds their validated values. |
| Validators.AbsentOrEmptyCode | src/lib/validators.ts:15-16 | A missing `code` and the literal `""` both validate to "no code". |
| Validators.CodeAcceptedIffTrimmedValid | src/lib/validators.ts:9-16 | A non-empty code is accepted exactly when its trimmed form has the code shape. The output is the trimmed code, and a rejection carries the shape message. |
| Validators.WhitespaceCodeRejected | src/lib/validators.ts:9-16 | A non-empty all-whitespace code is rejected with the shape message. It is not treated as "no code". |
| Validators.AcceptedCodeIsValid | src/lib/validators.ts:9-16 | Every accepted code passes `isValidCode` and is the trimmed form of the submitted string. |
| Validators.EmptyUrlRejected | src/lib/validators.ts:5-8 | An empty url fails with "URL is required", whatever the code field holds. |
| Utils.StripTrailingSlash | src/lib/utils.ts:2 | The result is the base or the base minus its last character, and that character is dropped exactly when it is a slash. |
| Utils.BuildShortUrl | src/lib/utils.ts:1-4 | The short URL ends with "/" + code, and what precedes it is the base with at most one trailing slash removed. |
| Utils.JoinWithoutSlash | src/lib/utils.ts:1-4 | A base without a trailing slash is kept as it is. |
| Utils.JoinDropsOneSlash | src/lib/utils.ts:2 | Only one trailing slash is removed: "x/" joins as "x/c" and "x//" as "x//c". |
| Utils.JoinIgnoresOneSlash | src/lib/utils.ts:1-4 | A base and the same base with one slash appended give the same short URL. |
| Utils.FormatTimestampAsWritten | src/lib/utils.ts:6-7 | Defines `formatTimestamp` with the placeholder literal as it stands in the file. `PlaceholderIsMisdecoded` states what it shows. |
| Utils.PlaceholderIsMisdecoded | src/lib/utils.ts:7 | As written, `null` and `""` both show a three-character placeholder that is not an em dash. |
| Utils.FormatTimestamp | src/lib/utils.ts:6-16 | `null` and `""` show the single character em dash, and any other value goes to the locale formatter. |
| Routes.Respond | src/app/api/links/route.ts:16-36 | The status is 400 exactly for validation errors (with the field errors), 201 exactly for a created link (with the link), 409 exactly for a unique-index violation, and 500 exactly for any other caught error (with its message). |
| Routes.ExhaustionIsServerError | src/app/api/links/route.ts:33-36 | When all five candidates are taken, POST without a code answers 500 with the exhaustion message, not 409. |
| Routes.TakenCodeIsConflict | src/app/api/links/route.ts:26-31 | POST with an explicit code answers 409 exactly when that code is already stored. |
| Routes.Get | src/app/api/links/route.ts:6-9 | Answers 200 with every stored row once, newest first. |
| Routes.Post | src/app/api/links/route.ts:11-38 | An unreadable body gives 500; an invalid body gives 400 with the field errors. Both leave the store unchanged. Otherwise the store becomes `CreateResult` of the validated url and trimmed code, and the response is `Respond` of its outcome. |
| LinksTable.Normalize | src/components/links-table.tsx:27 | Defines the query normalization: `trim`, then lower-casing. |
| LinksTable.Includes | src/components/links-table.tsx:44-45 | Defines `includes`: the needle is a prefix here or further on. `IncludesIff` states its meaning. |
| LinksTable.Matches | src/components/links-table.tsx:43-45 | Defines the filter test: the lower-cased code or the lower-cased url includes the normalized query. |
| LinksTable.IncludesIff | src/components/links-table.tsx:44-45 | `includes` holds exactly when the needle occurs at some position of the haystack. |
| LinksTable.KeepMatching | src/components/links-table.tsx:42-46 | The filter keeps exactly the matching links, with their multiplicities, in their original order. |
| LinksTable.SubsequenceKeepsOrder | src/components/links-table.tsx:42-46 | Filtering a sorted list leaves it sorted. |
| LinksTable.Filtered | src/components/links-table.tsx:26-47 | The working copy is a sorted permutation of the links. A blank normalized query returns it whole; otherwise the result is the matching links in sorted order, and it holds exactly the links whose lower-cased code or url contains the query. |

## Left out

- Prisma, the database and all I/O are replaced by the in-memory map. Concurrent
  requests are not modelled, so neither is the race between `findAvailableCode`'s
  lookup and the insert. The database's atomic `increment` is a plain update.
- `Math.random` is an oracle parameter: the model says nothing about uniformity or
  collision probability.
- Dates are natural-number instants. `toISOString` is taken to be lossless and is
  the identity in `Serialize`. `toLocaleString` is the `render` parameter of
  `Utils.FormatTimestamp`.
- zod's `.url()` is the abstract predicate `isUrl`. The messages zod generates
  itself ("Required", "Expected string, received …", "Invalid input") are
  modelled on their default English text. The form-level errors of a non-object
  body are not kept, only its empty field errors.
- `localeCompare` is the abstract total preorder `codeLeq`. Prisma's ordering of
  rows with equal `createdAt` is unspecified, and the model leaves ties unordered.
- Sorting.SortInPlace: does not state the order of ties. `Array.prototype.sort`
  is stable, so with the `clicks` or `code` key, links that tie keep the order of
  the `links` prop (newest first), and the table shows them in that order. The
  model promises only sortedness and permutation. The insertion sort swaps only
  strict inversions, so it is stable too, but this is not proved.
- LinksTable.Filtered: `toLowerCase` is modelled on ASCII letters only.
  Non-ASCII case mapping is not modelled.
- Code.CharsetIsAlphanumeric: the charset literal is written as its three runs
  of capitals, small letters and digits. It is the same 62-character string.
- Ids are a natural-number counter. In the source they are strings assigned by
  the store (`LinkDTO.id: string`). `updatedAt` is assumed to be stamped with the
  current time on create and on every update, so each click sets it to `now`.
- Store failures other than a unique-index violation and a missing record are
  not modelled. Neither is the "Unknown error" branch for a thrown non-Error
  value (src/app/api/links/route.ts:34).
- The redirect route (`src/app/[code]/route.ts`), the per-code API routes and all
  rendering and event handlers of the components (`handleCopy`, `handleDelete`)
  are not part of this model.
- LinksTable.Filtered: `links` is an immutable sequence, so "the prop is never
  written" holds by construction rather than by a frame proof.
- Three behaviours of the code worth knowing, each modelled as written:
  - An exhausted allocator makes POST answer 500, not 409
    (src/app/api/links/route.ts:33-36).
  - `createLink` itself does not validate a requested code; only the route's
    schema does (src/lib/links.ts:40-41).
  - The allocator looks each candidate up before the insert. It does not insert
    and retry on a conflict (src/lib/links.ts:53-65).

## Findings

| source | as written | input that shows it | evidently intended | confidence | as-written member | corrected member |
|---|---|---|---|---|---|---|
| src/lib/utils.ts:7 | the placeholder literal is the three characters U+00E2 U+20AC U+201D (the UTF-8 bytes of an em dash read as Windows-1252) | `formatTimestamp(null)` | the single character em dash U+2014 | high; not executed | Utils.PlaceholderIsMisdecoded | Utils.FormatTimestamp |
