/**
 Resource records: normalisation, identity, filters and the two orders the
 server sorts them by.
 */
module Records {
  import opened Names
  import opened Ordering

  type Uint16 = n: int | 0 <= n < 0x1_0000
  type Uint32 = n: int | 0 <= n < 0x1_0000_0000

  /** Text without the key separator; see KeyEncoding for why owners need it. */
  type BarFree = s: string | '|' !in s

  const TYPE_A: Uint16 := 1
  const TYPE_NS: Uint16 := 2
  const TYPE_CNAME: Uint16 := 5
  const TYPE_SOA: Uint16 := 6
  const TYPE_MX: Uint16 := 15
  const TYPE_AAAA: Uint16 := 28
  const TYPE_SRV: Uint16 := 33
  const TYPE_ANY: Uint16 := 255
  const CLASS_INET: Uint16 := 1
  const CLASS_NONE: Uint16 := 254
  const CLASS_ANY: Uint16 := 255

  predicate IsHex(s: string) {
    |s| == 16 && forall i :: 0 <= i < |s| ==> '0' <= s[i] <= '9' || 'a' <= s[i] <= 'f'
  }

  /** The first eight bytes of SHA-256 over "class|data" in hex: any function of the right shape. */
  type Fingerprinter = h: (Uint16, string) -> string | forall c, s :: IsHex(h(c, s))
    witness ((c, s) => "0000000000000000")
  const Fingerprint: Fingerprinter

  datatype Record = Record(zone: BarFree, name: BarFree, ttl: Uint32, cls: Uint16, rrtype: Uint16, data: string) {

    /** Record identity: the TTL and the case of the data do not take part. */
    function Key(): RecordKey {
      RecordKey(zone, name, rrtype, Fingerprint(cls, Lower(data)))
    }

    /** The target of a CNAME record, empty for any other type. */
    function CNAME(): string {
      if rrtype != TYPE_CNAME then "" else Normalize(data)
    }
  }

  /** The fields of a record key before they are printed into one string. */
  datatype RecordKey = RecordKey(zone: BarFree, name: BarFree, rrtype: Uint16, fingerprint: string)

  function NormalizeName(s: BarFree): (n: BarFree)
    ensures n == Normalize(s)
  {
    NormalizeKeepsBarFree(s);
    Normalize(s)
  }

  function NormalizeZoneName(s: BarFree): Result<BarFree> {
    var n := NormalizeName(s);
    if n == "." then Err else Ok(n)
  }

  function NormalizeRecord(r: Record): Result<Record> {
    match NormalizeZoneName(r.zone)
    case Err => Err
    case Ok(zone) =>
      var name := NormalizeName(r.name);
      var data := TrimSpace(r.data);
      if name == "." || !IsSubDomain(zone, name) || data == "" || r.rrtype == 0 then
        Err
      else
        Ok(r.(zone := zone, name := name, data := data, cls := if r.cls == 0 then CLASS_INET else r.cls))
  }

  function NormalizeLookup(zone: BarFree, name: string): Result<(BarFree, string)> {
    match NormalizeZoneName(zone)
    case Err => Err
    case Ok(z) => if IsSubDomain(z, Normalize(name)) then Ok((z, Normalize(name))) else Err
  }

  ghost predicate IsNormalZone(z: BarFree) {
    IsNormal(z) && z != "."
  }

  /** What a store may hold: exactly the fixed points of NormalizeRecord. */
  ghost predicate IsNormalRecord(r: Record) {
    && IsNormalZone(r.zone)
    && IsNormal(r.name) && r.name != "."
    && IsSubDomain(r.zone, r.name)
    && r.data != "" && NoEdgeSpace(r.data)
    && r.rrtype != 0 && r.cls != 0
  }

  lemma NormalizeZoneNameFacts(z: BarFree)
    ensures NormalizeZoneName(z).Ok? ==> IsNormalZone(NormalizeZoneName(z).value)
    ensures IsNormalZone(z) ==> NormalizeZoneName(z) == Ok(z)
  {
    NormalizeIsNormal(z);
    NormalizeIdempotent(z);
  }

  /** Normalisation lands in the stored shape, and the stored shape is its fixed points. */
  lemma NormalizeRecordFacts(r: Record)
    ensures NormalizeRecord(r).Ok? ==> IsNormalRecord(NormalizeRecord(r).value)
    ensures NormalizeRecord(r) == Ok(r) <==> IsNormalRecord(r)
  {
    NormalizeZoneNameFacts(r.zone);
    NormalizeIdempotent(r.zone);
    NormalizeIsNormal(r.name);
    NormalizeIdempotent(r.name);
    TrimSpaceShape(r.data);
    if NoEdgeSpace(r.data) {
      TrimSpaceIdentity(r.data);
    }
  }

  /** n is r with its names in normal form, its data trimmed and its class filled in. */
  ghost predicate IsNormalRecordOf(n: Record, r: Record) {
    && IsNormalRecord(n)
    && IsNormalFormOf(n.zone, r.zone) && IsNormalFormOf(n.name, r.name) && IsTrimOf(n.data, r.data)
    && n.ttl == r.ttl && n.rrtype == r.rrtype && n.cls == (if r.cls == 0 then CLASS_INET else r.cls)
  }

  lemma NormalizeRecordExactly(r: Record, n: Record)
    ensures NormalizeRecord(r) == Ok(n) <==> IsNormalRecordOf(n, r)
  {
    NormalizeExactly(r.zone, n.zone);
    NormalizeExactly(r.name, n.name);
    TrimSpaceExactly(r.data, n.data);
    NormalizeRecordFacts(r);
    hide IsNormalFormOf, IsTrimOf, Normalize, TrimSpace, IsSubDomain;
  }

  /** A zone name is accepted with its normal form, unless that is the root. */
  lemma NormalizeZoneNameExactly(s: BarFree, z: BarFree)
    ensures NormalizeZoneName(s) == Ok(z) <==> IsNormalFormOf(z, s) && z != "."
  {
    NormalizeExactly(s, z);
    hide IsNormalFormOf, Normalize;
  }

  // ----------------------------------------------------------------- identity

  /** The same zone, owner, type, class and, up to case, data; the TTL does not matter. */
  ghost predicate SameRecord(a: Record, b: Record) {
    a.zone == b.zone && a.name == b.name && a.rrtype == b.rrtype && a.cls == b.cls && SameUpToCase(a.data, b.data)
  }

  /** The fingerprint tells the two records apart if their class or data differ. */
  ghost predicate NoCollision(a: Record, b: Record) {
    Fingerprint(a.cls, Lower(a.data)) == Fingerprint(b.cls, Lower(b.data)) ==>
      a.cls == b.cls && SameUpToCase(a.data, b.data)
  }

  /** Same records share a key; short of a collision of fingerprints, no others do. */
  lemma SameKeyExactly(a: Record, b: Record)
    ensures SameRecord(a, b) ==> a.Key() == b.Key()
    ensures NoCollision(a, b) ==> (a.Key() == b.Key() <==> SameRecord(a, b))
  {
    SameLower(a.data, b.data);
    hide SameUpToCase, Lower;
  }

  // ------------------------------------------------------------ CNAME targets

  /** The alias r leads to this name: the normal form of its data. */
  ghost predicate LeadsTo(r: Record, target: string) {
    r.rrtype == TYPE_CNAME && IsNormalFormOf(target, r.data)
  }

  /** The target of an alias is the normal form of its data: the data itself, if that is a normal name. */
  lemma CnameExactly(r: Record, target: string)
    ensures LeadsTo(r, target) <==> r.rrtype == TYPE_CNAME && r.CNAME() == target
    ensures r.CNAME() == "" <==> r.rrtype != TYPE_CNAME
    ensures r.rrtype == TYPE_CNAME && IsNormal(r.data) ==> r.CNAME() == r.data
  {
    NormalizeExactly(r.data, target);
    NormalizeIsNormal(r.data);
    NormalizeIdempotent(r.data);
    hide IsNormalFormOf;
  }

  // ------------------------------------------------------------------ filters

  datatype RecordFilter = RecordFilter(zone: BarFree, name: BarFree, rrtype: Uint16, cls: Uint16)

  function NormalizeRecordFilter(f: RecordFilter): Result<RecordFilter> {
    var zone := NormalizeName(f.zone);
    var name := NormalizeName(f.name);
    if f.zone != "" && zone == "." then Err
    else if f.name != "" && name == "." then Err
    else if f.zone != "" && f.name != "" && !IsSubDomain(zone, name) then Err
    else Ok(RecordFilter(
      if f.zone == "" then "" else zone,
      if f.name == "" then "" else name,
      if f.rrtype == TYPE_ANY then 0 else f.rrtype,
      if f.cls == CLASS_ANY then 0 else f.cls))
  }

  predicate RecordMatchesFilter(r: Record, f: RecordFilter) {
    && (f.zone == "" || r.zone == f.zone)
    && (f.name == "" || r.name == f.name)
    && (f.rrtype == 0 || r.rrtype == f.rrtype)
    && (f.cls == 0 || r.cls == f.cls)
  }

  predicate InRRset(r: Record, zone: string, name: string, qtype: Uint16, qclass: Uint16) {
    && r.zone == zone && r.name == name
    && (qtype == TYPE_ANY || r.rrtype == qtype)
    && (qclass == CLASS_ANY || r.cls == qclass)
  }

  // ------------------------------------------------------------------- orders

  /** CompareRecordsByData, with the ties it leaves open broken by the other fields. */
  predicate ByData(a: Record, b: Record) {
    if a.data != b.data then StrLess(a.data, b.data)
    else if a.rrtype != b.rrtype then a.rrtype < b.rrtype
    else if a.cls != b.cls then a.cls < b.cls
    else if a.zone != b.zone then StrLess(a.zone, b.zone)
    else if a.name != b.name then StrLess(a.name, b.name)
    else a.ttl < b.ttl
  }

  /** CompareRecords, with the ties it leaves open broken by class and TTL. */
  predicate ByRecord(a: Record, b: Record) {
    if a.zone != b.zone then StrLess(a.zone, b.zone)
    else if a.name != b.name then StrLess(a.name, b.name)
    else if a.rrtype != b.rrtype then a.rrtype < b.rrtype
    else if a.data != b.data then StrLess(a.data, b.data)
    else if a.cls != b.cls then a.cls < b.cls
    else a.ttl < b.ttl
  }

  lemma ByDataTotal()
    ensures StrictTotal(ByData)
  {
    StrLessTotal();
    hide StrLess;
  }

  lemma ByRecordTotal()
    ensures StrictTotal(ByRecord)
  {
    StrLessTotal();
    hide StrLess;
  }

  /** Records are ordered by zone, owner, type and data, in that order. */
  lemma ByRecordExactly(a: Record, b: Record)
    ensures StrLess(a.zone, b.zone) ==> ByRecord(a, b)
    ensures a.zone == b.zone && StrLess(a.name, b.name) ==> ByRecord(a, b)
    ensures a.zone == b.zone && a.name == b.name && a.rrtype < b.rrtype ==> ByRecord(a, b)
    ensures a.zone == b.zone && a.name == b.name && a.rrtype == b.rrtype && StrLess(a.data, b.data) ==> ByRecord(a, b)
  {
    StrLessTotal();
    hide StrLess;
  }
}
