/** The shape of a DNS record as the provider lists it and as an update sends it back. */
module Records {
  import opened Wrappers

  /** The optional `settings` object of a record. */
  datatype RecordSettings = RecordSettings(ipv4Only: bool, ipv6Only: bool)

  /**
   * The writable part of a record: everything an update sends. The update endpoint
   * replaces the whole resource, so every field here travels on each write.
   */
  datatype ARecord = ARecord(
    name: string,
    ttl: int,
    recordType: string,
    comment: string,
    content: string,
    proxied: bool,
    settings: Option<RecordSettings>,
    tags: seq<string>)

  /**
   * A record as listed: the provider-assigned id and the writable part. The time
   * stamps, `meta` and `proxiable` of a listed record are never read and are not kept.
   */
  datatype RecordResponse = RecordResponse(id: string, rec: ARecord)

  /** Two records that agree on every writable field except `content`. */
  predicate SameExceptContent(a: ARecord, b: ARecord)
  {
    a.name == b.name && a.ttl == b.ttl && a.recordType == b.recordType &&
    a.comment == b.comment && a.proxied == b.proxied &&
    a.settings == b.settings && a.tags == b.tags
  }
}
