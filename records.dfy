/**
 * The link record as the store holds it (Prisma's `Link`) and as the API ships it
 * (`LinkDTO`, src/lib/links.ts).  Timestamps are opaque instants (milliseconds);
 * `toISOString` is a lossless change of representation, so both shapes carry the
 * same instant.
 */
module Records {
  import opened Wrappers

  type Timestamp = nat

  /** A row of the store: `id` is assigned by the store, `code` is unique. */
  datatype Link = Link(
    id: nat,
    code: string,
    url: string,
    clickCount: nat,
    lastClicked: Option<Timestamp>,
    createdAt: Timestamp,
    updatedAt: Timestamp)

  /** `LinkDTO`: the serialized form returned by every store operation. */
  datatype LinkDTO = LinkDTO(
    id: nat,
    code: string,
    url: string,
    clickCount: nat,
    lastClicked: Option<Timestamp>,
    createdAt: Timestamp,
    updatedAt: Timestamp)

  /** `serialize`: spreads the row and re-encodes its three dates. */
  function Serialize(link: Link): (dto: LinkDTO)
    ensures dto.id == link.id && dto.code == link.code && dto.url == link.url
    ensures dto.clickCount == link.clickCount
    ensures dto.lastClicked.None? <==> link.lastClicked.None?
    ensures link.lastClicked.Some? ==> dto.lastClicked == link.lastClicked
    ensures dto.createdAt == link.createdAt && dto.updatedAt == link.updatedAt
  {
    LinkDTO(
      link.id, link.code, link.url, link.clickCount,
      match link.lastClicked
      case None => None
      case Some(t) => Some(t),
      link.createdAt, link.updatedAt)
  }

  /** Serializing loses nothing: distinct rows give distinct DTOs. */
  lemma SerializeInjective(a: Link, b: Link)
    requires Serialize(a) == Serialize(b)
    ensures a == b
  {
  }
}
