/** The records that the handlers and the three storage backends exchange. */
module Models {

  datatype Option<+T> = None | Some(value: T) {
    function GetOr(default: T): T {
      match this
      case Some(v) => v
      case None => default
    }
  }

  datatype Result<+T, +E> = Ok(value: T) | Err(error: E)

  /** An instant or a duration, in nanoseconds. */
  type Time = int

  /** Integer division in Go and in SQL truncates toward zero. */
  function Quo(a: int, b: int): int
    requires b > 0
  {
    if a >= 0 then a / b else -((-a) / b)
  }

  type Byte = bv8
  type Bytes = seq<Byte>

  /** One entry of a weighted routing pool. */
  datatype Destination = Destination(url: string, weight: int)

  datatype ClickEvent = ClickEvent(
    at: Time, ipHash: string, referer: string, uaClass: string, country: string, destinationUrl: string)

  /** `at == None` is Go's zero time, which the store replaces by its own clock. */
  datatype AuditEvent = AuditEvent(
    id: int, at: Option<Time>, actorKind: string, actorId: string, action: string, target: string)

  datatype APIKey = APIKey(id: int, tokenHash: Bytes, keyLabel: string, createdAt: Time, lastUsedAt: Option<Time>)

  /** The contents of a URL mapping, with every slice and pointer followed to its value. */
  datatype Row = Row(
    id: string,
    originalUrl: string,
    createdAt: Time,
    expiresAt: Option<Time>,
    clickCount: int,
    lastAccessed: Option<Time>,
    ownerTokenHash: Bytes,
    tags: seq<string>,
    maxClicks: int,
    passwordHash: Bytes,
    passwordSalt: Bytes,
    webhookUrl: string,
    webhookSecret: Bytes,
    apiKeyId: int,
    previewTitle: string,
    previewImage: string,
    previewDescription: string,
    previewFetchedAt: Option<Time>,
    destinations: seq<Destination>)

  /** The patch payload of `Store.Update`; `None` is a nil pointer or a nil slice ("leave alone"). */
  datatype UpdateFields = UpdateFields(
    originalUrl: Option<string> := None,
    expiresAt: Option<Time> := None,
    clearExpiration: bool := false,
    tags: Option<seq<string>> := None,
    maxClicks: Option<int> := None,
    passwordHash: Option<Bytes> := None,
    passwordSalt: Bytes := [],
    clearPassword: bool := false,
    webhookUrl: Option<string> := None,
    webhookSecret: Option<Bytes> := None,
    clearWebhook: bool := false,
    apiKeyId: Option<int> := None,
    previewTitle: Option<string> := None,
    previewImage: Option<string> := None,
    previewDescription: Option<string> := None,
    setPreviewFetched: bool := false,
    destinations: Option<seq<Destination>> := None)
}
