/** One audit record: its columns, its canonical text, and what that text pins down. */
module AuditEntry {
  import opened Bytes
  import opened CanonicalJson
  import Float64
  import Ids
  import opened JsonScan
  import opened Net

  type Id = s: seq<nat> | |s| == 16 && IsBytes(s) witness seq(16, _ => 0)

  /** One event as code sees it; `at` counts nanoseconds since 1970. */
  datatype Entry = Entry(
    id: Id, tenant: Id, actorKind: string, actorId: Option<Id>, action: string,
    targetKind: string, targetId: Option<Id>, details: Option<map<string, Json>>, at: int)

  /** The same event as table columns; `us` counts microseconds. */
  datatype Row = Row(
    seqNo: nat, id: Id, tenant: Id, actorKind: string, actorId: Option<Id>, action: string,
    targetKind: Option<string>, targetId: Option<Id>, details: Option<map<string, Json>>,
    prevHash: Option<string>, hash: string, us: int)

  datatype Error = NoAction | NoTenant | NoActorKind

  /** Go's zero time, 1 January of year 1, in nanoseconds. */
  const ZERO_TIME := -62135596800_000_000_000

  // ---------------------------------------------------------------- columns and back

  function Normalised(e: Entry, freshId: Id, now: int): Entry {
    var at := if e.at == ZERO_TIME then now else e.at;
    e.(id := if Ids.IsZero(e.id) then freshId else e.id, at := at / 1000 * 1000)
  }

  function Refusal(e: Entry): Option<Error> {
    if e.action == "" then Some(NoAction)
    else if Ids.IsZero(e.tenant) then Some(NoTenant)
    else if e.actorKind == "" then Some(NoActorKind)
    else None
  }

  function RowOf(e: Entry, seqNo: nat, prev: Option<string>, hash: string): Row {
    Row(seqNo, e.id, e.tenant, e.actorKind, e.actorId, e.action,
        if e.targetKind == "" then None else Some(e.targetKind), e.targetId, e.details,
        prev, hash, e.at / 1000)
  }

  function EntryOf(r: Row): Entry {
    Entry(r.id, r.tenant, r.actorKind, r.actorId, r.action,
          KindText(r.targetKind), r.targetId, DecodedDetails(r.details), r.us * 1000)
  }

  function KindText(kind: Option<string>): string {
    if kind.Some? then kind.value else ""
  }

  /** Details as they are after decoding: every number a 64-bit float. */
  function DecodedDetails(d: Option<map<string, Json>>): Option<map<string, Json>> {
    match d
    case None => None
    case Some(m) => Some(Decoded(Obj(m)).fields)
  }

  function Settled(e: Entry): Entry {
    e.(details := DecodedDetails(e.details))
  }

  lemma DecodedDetailsTwice(d: Option<map<string, Json>>)
    ensures DecodedDetails(DecodedDetails(d)) == DecodedDetails(d)
  {
    if d.Some? {
      DecodedTwice(Obj(d.value));
    }
  }

  /** The verifier reads back the appended entry as decoding leaves it, which hashes the same. */
  lemma ColumnsRoundTrip(e: Entry, freshId: Id, now: int, seqNo: nat, prev: Option<string>, hash: string)
    ensures var n := Normalised(e, freshId, now);
            EntryOf(RowOf(n, seqNo, prev, hash)) == Settled(n) && Canon(Settled(n)) == Canon(n)
  {
    var n := Normalised(e, freshId, now);
    assert n.at / 1000 * 1000 == n.at;
    CanonSettled(n);
  }

  /** What one append is to leave: a row with the entry's own columns, a missing id and time filled in. */
  predicate ColumnsOf(r: Row, e: Entry, freshId: Id, now: int) {
    && r.id == (if forall i | 0 <= i < 16 :: e.id[i] == 0 then freshId else e.id)
    && r.tenant == e.tenant && r.actorKind == e.actorKind && r.actorId == e.actorId && r.action == e.action
    && (r.targetKind == if e.targetKind == "" then None else Some(e.targetKind)) && r.targetId == e.targetId
    && r.details == e.details
    && var at := if e.at == -62135596800_000_000_000 then now else e.at; r.us * 1000 <= at < r.us * 1000 + 1000
  }

  lemma RowInColumns(e: Entry, freshId: Id, now: int, seqNo: nat, prev: Option<string>, hash: string)
    ensures ColumnsOf(RowOf(Normalised(e, freshId, now), seqNo, prev, hash), e, freshId, now)
  {
  }

  /** An action, a tenant and an actor kind are required, and missed in this order. */
  predicate Refused(e: Entry, error: Option<Error>) {
    && (error == Some(NoAction) <==> e.action == "")
    && (error == Some(NoTenant) <==> e.action != "" && forall i | 0 <= i < 16 :: e.tenant[i] == 0)
    && (error == Some(NoActorKind) <==> e.action != "" && (exists i :: 0 <= i < 16 && e.tenant[i] != 0) && e.actorKind == "")
  }

  lemma RefusalInColumns(e: Entry, freshId: Id, now: int)
    ensures Refused(e, Refusal(Normalised(e, freshId, now)))
  {
  }

  // ---------------------------------------------------------------- what is hashed

  function Optional(key: string, v: Option<Json>): map<string, Json> {
    match v
    case None => map[]
    case Some(j) => map[key := j]
  }

  function IdJson(id: Option<Id>): Option<Json> {
    match id
    case None => None
    case Some(i) => Some(Str(Ids.Text(i)))
  }

  /** An instant as text; any one-to-one spelling will do. */
  function TimeText(at: int): string {
    Decimal(at)
  }

  /** The fields that are always there. */
  function Required(id: string, tenant: string, kind: string, action: string, at: string): map<string, Json> {
    map["id" := Str(id), "tenant_id" := Str(tenant), "actor_kind" := Str(kind), "action" := Str(action),
        "occurred_at" := Str(at)]
  }

  /** An entry's JSON values, part by part. */
  datatype Parts = Parts(
    id: string, tenant: string, actorKind: string, action: string, at: string,
    actor: Option<Json>, targetKind: Option<Json>, target: Option<Json>, details: Option<Json>)

  /** Absent parts leave no field behind. */
  function PartFields(p: Parts): map<string, Json> {
    Required(p.id, p.tenant, p.actorKind, p.action, p.at)
      + Optional("actor_id", p.actor) + Optional("target_kind", p.targetKind)
      + Optional("target_id", p.target) + Optional("details", p.details)
  }

  function KindJson(kind: string): Option<Json> {
    if kind == "" then None else Some(Str(kind))
  }

  function DetailsJson(d: Option<map<string, Json>>): Option<Json> {
    if d.None? || d.value == map[] then None else Some(Obj(d.value))
  }

  function PartsOf(e: Entry): Parts {
    Parts(Ids.Text(e.id), Ids.Text(e.tenant), e.actorKind, e.action, TimeText(e.at),
          IdJson(e.actorId), KindJson(e.targetKind), IdJson(e.targetId), DetailsJson(e.details))
  }

  /** The JSON fields of an entry; empty ones are left out. */
  function Fields(e: Entry): map<string, Json> {
    PartFields(PartsOf(e))
  }

  /** The text that is hashed: marshalled, decoded, and encoded canonically. */
  ghost function Canon(e: Entry): string {
    Encode(Decoded(Obj(Fields(e))))
  }

  method WriteCanon(e: Entry) returns (text: string)
    ensures text == Canon(e)
  {
    text := CanonicalEncode(Decoded(Obj(Fields(e))));
  }

  function DecodedOption(j: Option<Json>): Option<Json> {
    match j
    case None => None
    case Some(v) => Some(Decoded(v))
  }

  function DecodedParts(p: Parts): Parts {
    p.(actor := DecodedOption(p.actor), targetKind := DecodedOption(p.targetKind),
       target := DecodedOption(p.target), details := DecodedOption(p.details))
  }

  lemma DecodedPlus(m: map<string, Json>, key: string, v: Option<Json>)
    ensures Decoded(Obj(m + Optional(key, v))) == Obj(Decoded(Obj(m)).fields + Optional(key, DecodedOption(v)))
  {
    assert Decoded(Obj(m + Optional(key, v))).fields == Decoded(Obj(m)).fields + Optional(key, DecodedOption(v));
  }

  lemma DecodedFields(p: Parts)
    ensures Decoded(Obj(PartFields(p))) == Obj(PartFields(DecodedParts(p)))
  {
    var m0 := Required(p.id, p.tenant, p.actorKind, p.action, p.at);
    var m1 := m0 + Optional("actor_id", p.actor);
    var m2 := m1 + Optional("target_kind", p.targetKind);
    var m3 := m2 + Optional("target_id", p.target);
    assert Decoded(Obj(m0)).fields == m0;
    DecodedPlus(m0, "actor_id", p.actor);
    DecodedPlus(m1, "target_kind", p.targetKind);
    DecodedPlus(m2, "target_id", p.target);
    DecodedPlus(m3, "details", p.details);
  }

  lemma TextDecodes(j: Option<Json>)
    requires j.Some? ==> j.value.Str?
    ensures DecodedOption(j) == j
  {
  }

  lemma DetailsDecode(d: Option<map<string, Json>>)
    ensures DecodedOption(DetailsJson(d)) == DetailsJson(DecodedDetails(d))
  {
    if d.Some? && d.value != map[] {
      var k :| k in d.value;
      assert k in Decoded(Obj(d.value)).fields;
    }
  }

  lemma DecodedPartsOf(p: Parts, d: Option<map<string, Json>>)
    requires p.actor.Some? ==> p.actor.value.Str?
    requires p.targetKind.Some? ==> p.targetKind.value.Str?
    requires p.target.Some? ==> p.target.value.Str?
    requires p.details == DetailsJson(d)
    ensures DecodedParts(p) == p.(details := DetailsJson(DecodedDetails(d)))
  {
    TextDecodes(p.actor);
    TextDecodes(p.targetKind);
    TextDecodes(p.target);
    DetailsDecode(d);
  }

  lemma SettledParts(e: Entry)
    ensures DecodedParts(PartsOf(e)) == PartsOf(Settled(e))
  {
    DecodedPartsOf(PartsOf(e), e.details);
  }

  /** Only the details hold numbers, so decoding an entry decodes its details. */
  lemma CanonValue(e: Entry)
    ensures Decoded(Obj(Fields(e))) == Obj(Fields(Settled(e)))
  {
    DecodedFields(PartsOf(e));
    SettledParts(e);
  }

  lemma CanonSettled(e: Entry)
    ensures Canon(Settled(e)) == Canon(e)
  {
    CanonValue(e);
    CanonValue(Settled(e));
    DecodedDetailsTwice(e.details);
  }

  /** The details as values; nil is the same as empty. */
  function Values(d: Option<map<string, Json>>): map<string, Json> {
    if d.Some? then d.value else map[]
  }

  lemma ValuesTell(d: Option<map<string, Json>>, e: Option<map<string, Json>>)
    ensures DetailsJson(d) == DetailsJson(e) <==> Values(d) == Values(e)
  {
  }

  /** Agreement on everything but nil against empty details, and integers decoding cannot tell apart. */
  predicate SameEvent(e: Entry, f: Entry) {
    && e.(details := None) == f.(details := None)
    && Values(DecodedDetails(e.details)) == Values(DecodedDetails(f.details))
  }

  function Lookup(m: map<string, Json>, key: string): Option<Json> {
    if key in m then Some(m[key]) else None
  }

  lemma OptionalLookup(m: map<string, Json>, key: string, v: Option<Json>, k: string)
    ensures Lookup(m + Optional(key, v), k) == if k == key && v.Some? then v else Lookup(m, k)
  {
  }

  lemma RequiredLookup(p: Parts, k: string)
    ensures Lookup(Required(p.id, p.tenant, p.actorKind, p.action, p.at), k) ==
            if k == "id" then Some(Str(p.id)) else if k == "tenant_id" then Some(Str(p.tenant))
            else if k == "actor_kind" then Some(Str(p.actorKind)) else if k == "action" then Some(Str(p.action))
            else if k == "occurred_at" then Some(Str(p.at)) else None
  {
  }

  lemma PartLookup(p: Parts, k: string)
    ensures Lookup(PartFields(p), k) ==
            if k == "actor_id" then p.actor else if k == "target_kind" then p.targetKind
            else if k == "target_id" then p.target else if k == "details" then p.details
            else Lookup(Required(p.id, p.tenant, p.actorKind, p.action, p.at), k)
  {
    var m0 := Required(p.id, p.tenant, p.actorKind, p.action, p.at);
    var m1 := m0 + Optional("actor_id", p.actor);
    var m2 := m1 + Optional("target_kind", p.targetKind);
    var m3 := m2 + Optional("target_id", p.target);
    RequiredLookup(p, k);
    OptionalLookup(m0, "actor_id", p.actor, k);
    OptionalLookup(m1, "target_kind", p.targetKind, k);
    OptionalLookup(m2, "target_id", p.target, k);
    OptionalLookup(m3, "details", p.details, k);
  }

  /** The JSON form by its keys: which are there, and what they hold. */
  lemma FieldsByKey(e: Entry, k: string)
    ensures Lookup(Fields(e), k) ==
            if k == "id" then Some(Str(Ids.Text(e.id))) else if k == "tenant_id" then Some(Str(Ids.Text(e.tenant)))
            else if k == "actor_kind" then Some(Str(e.actorKind)) else if k == "action" then Some(Str(e.action))
            else if k == "occurred_at" then Some(Str(Decimal(e.at)))
            else if k == "actor_id" && e.actorId.Some? then Some(Str(Ids.Text(e.actorId.value)))
            else if k == "target_id" && e.targetId.Some? then Some(Str(Ids.Text(e.targetId.value)))
            else if k == "target_kind" && e.targetKind != "" then Some(Str(e.targetKind))
            else if k == "details" && Values(e.details) != map[] then Some(Obj(Values(e.details)))
            else None
  {
    PartLookup(PartsOf(e), k);
    RequiredLookup(PartsOf(e), k);
  }

  lemma OptionalTells(m: map<string, Json>, n: map<string, Json>, key: string, v: Option<Json>, w: Option<Json>)
    requires key !in m && key !in n && m + Optional(key, v) == n + Optional(key, w)
    ensures v == w && m == n
  {
    var a, b := m + Optional(key, v), n + Optional(key, w);
    assert v.Some? <==> key in a;
    assert w.Some? <==> key in b;
    assert v.Some? ==> a[key] == v.value;
    assert w.Some? ==> b[key] == w.value;
    assert m == a - {key} && n == b - {key};
  }

  lemma RequiredTells(p: Parts, q: Parts)
    requires Required(p.id, p.tenant, p.actorKind, p.action, p.at) == Required(q.id, q.tenant, q.actorKind, q.action, q.at)
    ensures p.id == q.id && p.tenant == q.tenant && p.actorKind == q.actorKind && p.action == q.action && p.at == q.at
  {
    var m, n := Required(p.id, p.tenant, p.actorKind, p.action, p.at), Required(q.id, q.tenant, q.actorKind, q.action, q.at);
    assert m["id"] == n["id"] && m["tenant_id"] == n["tenant_id"] && m["actor_kind"] == n["actor_kind"];
    assert m["action"] == n["action"] && m["occurred_at"] == n["occurred_at"];
  }

  lemma PartFieldsTell(p: Parts, q: Parts)
    requires PartFields(p) == PartFields(q)
    ensures p == q
  {
    var m, n := Required(p.id, p.tenant, p.actorKind, p.action, p.at), Required(q.id, q.tenant, q.actorKind, q.action, q.at);
    var m1, n1 := m + Optional("actor_id", p.actor), n + Optional("actor_id", q.actor);
    var m2, n2 := m1 + Optional("target_kind", p.targetKind), n1 + Optional("target_kind", q.targetKind);
    var m3, n3 := m2 + Optional("target_id", p.target), n2 + Optional("target_id", q.target);
    OptionalTells(m3, n3, "details", p.details, q.details);
    OptionalTells(m2, n2, "target_id", p.target, q.target);
    OptionalTells(m1, n1, "target_kind", p.targetKind, q.targetKind);
    OptionalTells(m, n, "actor_id", p.actor, q.actor);
    RequiredTells(p, q);
  }

  lemma TextTells(a: Id, b: Id)
    requires Ids.Text(a) == Ids.Text(b)
    ensures a == b
  {
    Ids.ParseInvertsText(a);
    Ids.ParseInvertsText(b);
  }

  lemma IdTells(a: Option<Id>, b: Option<Id>)
    requires IdJson(a) == IdJson(b)
    ensures a == b
  {
    if a.Some? {
      TextTells(a.value, b.value);
    }
  }

  lemma TimeTells(x: int, y: int)
    requires TimeText(x) == TimeText(y)
    ensures x == y
  {
    assert Decimal(x) + "" == Decimal(x) && Decimal(y) + "" == Decimal(y);
    DecimalUnambiguous(x, y, "", "");
  }

  lemma FieldsTell(e: Entry, f: Entry)
    requires Fields(e) == Fields(f)
    ensures e.(details := None) == f.(details := None) && DetailsJson(e.details) == DetailsJson(f.details)
  {
    PartFieldsTell(PartsOf(e), PartsOf(f));
    TextTells(e.id, f.id);
    TextTells(e.tenant, f.tenant);
    IdTells(e.actorId, f.actorId);
    IdTells(e.targetId, f.targetId);
    TimeTells(e.at, f.at);
  }

  lemma SameFields(e: Entry, f: Entry)
    requires e.(details := None) == f.(details := None) && DetailsJson(e.details) == DetailsJson(f.details)
    ensures Fields(e) == Fields(f)
  {
    assert PartsOf(e) == PartsOf(f);
  }

  /** Two entries hash from the same text exactly when they are the same event. */
  lemma CanonTells(e: Entry, f: Entry)
    ensures Canon(e) == Canon(f) <==> SameEvent(e, f)
  {
    CanonValue(e);
    CanonValue(f);
    ValuesTell(DecodedDetails(e.details), DecodedDetails(f.details));
    EncodeInjective(Obj(Fields(Settled(e))), Obj(Fields(Settled(f))));
    if Fields(Settled(e)) == Fields(Settled(f)) {
      FieldsTell(Settled(e), Settled(f));
    }
    if SameEvent(e, f) {
      SameFields(Settled(e), Settled(f));
    }
  }

  ghost predicate ExactDetails(e: Entry) {
    e.details.Some? ==> Exact(Obj(e.details.value))
  }

  /** With integers of at most 2^53 in the details, the same event means equal entries, but for
      nil against empty details. */
  lemma SameEventIsEqual(e: Entry, f: Entry)
    requires ExactDetails(e) && ExactDetails(f)
    ensures SameEvent(e, f) <==> e.(details := None) == f.(details := None) && Values(e.details) == Values(f.details)
  {
    if e.details.Some? { ExactIsKept(Obj(e.details.value)); }
    if f.details.Some? { ExactIsKept(Obj(f.details.value)); }
  }

  lemma OneNumberDecodes(key: string, n: int, m: int)
    requires Float64.Rounded(n) == m
    ensures DecodedDetails(Some(map[key := Num(n)])) == Some(map[key := Num(m)])
  {
    assert Decoded(Num(n)) == Num(m);
    assert Decoded(Obj(map[key := Num(n)])).fields == map[key := Num(m)];
  }

  /** Beyond 2^53 it fails: 2^53 + 1 changed to 2^53 leaves the hashed text as it was. */
  lemma LargeIntegersCollapse(e: Entry, key: string)
    ensures var n := Float64.EXACT;
            var f, g := e.(details := Some(map[key := Num(n + 1)])), e.(details := Some(map[key := Num(n)]));
            f != g && Canon(f) == Canon(g)
  {
    var n := Float64.EXACT;
    var f, g := e.(details := Some(map[key := Num(n + 1)])), e.(details := Some(map[key := Num(n)]));
    Float64.FirstLoss();
    Float64.SmallIsExact(n);
    assert f.details.value[key] != g.details.value[key];
    OneNumberDecodes(key, n + 1, n);
    OneNumberDecodes(key, n, n);
    CanonTells(f, g);
  }

  lemma ObjectOpens(v: Json)
    requires v.Obj? && v.fields != map[] && forall k | k in v.fields :: IsWord(k)
    ensures OpensObject(Encode(v))
  {
    var keys := SortedKeysOf(v);
    var k :| k in v.fields;
    assert k in keys && keys[0] in keys;
    FirstKeyOpens(v, keys);
  }

  /** A record's text opens an object whose first key begins with a letter. */
  lemma CanonOpens(e: Entry)
    ensures OpensObject(Canon(e))
  {
    var m := Fields(Settled(e));
    CanonValue(e);
    forall k | k in m ensures IsWord(k) {
      KeysAreWords(PartsOf(Settled(e)), k);
    }
    SomeField(PartsOf(Settled(e)));
    ObjectOpens(Obj(m));
  }

  lemma SomeField(p: Parts)
    ensures PartFields(p) != map[]
  {
    assert "id" in PartFields(p);
  }

  predicate IsWord(k: string) {
    k != "" && 'a' <= k[0] <= 'z'
  }

  lemma OptionalWord(m: map<string, Json>, key: string, v: Option<Json>, k: string)
    requires IsWord(key) && k in m + Optional(key, v) && (k in m ==> IsWord(k))
    ensures IsWord(k)
  {
  }

  lemma KeysAreWords(p: Parts, k: string)
    requires k in PartFields(p)
    ensures IsWord(k)
  {
    var m0 := Required(p.id, p.tenant, p.actorKind, p.action, p.at);
    var m1 := m0 + Optional("actor_id", p.actor);
    var m2 := m1 + Optional("target_kind", p.targetKind);
    var m3 := m2 + Optional("target_id", p.target);
    if k in m1 { OptionalWord(m0, "actor_id", p.actor, k); }
    if k in m2 { OptionalWord(m1, "target_kind", p.targetKind, k); }
    if k in m3 { OptionalWord(m2, "target_id", p.target, k); }
    OptionalWord(m3, "details", p.details, k);
  }

  lemma FirstKeyOpens(v: Json, keys: seq<string>)
    requires v.Obj? && keys != [] && (forall k | k in keys :: k in v.fields)
    requires keys[0] != "" && 'a' <= keys[0][0] <= 'z'
    ensures OpensObject("{" + FieldsText(v, keys, true))
  {
    var k := keys[0];
    assert keys[0] in keys;
    assert Escape(k[0]) == [k[0]];
    assert Quoted(k)[0] == '"' && Quoted(k)[1] == k[0];
  }

  /** A record's text is never something followed by another record's text. */
  lemma NoRecordEndsAnother(e: Entry, f: Entry, front: string)
    requires Canon(e) == front + Canon(f)
    ensures front == ""
  {
    CanonOpens(f);
    CanonValue(e);
    CanonValue(f);
    NoObjectEndsAnother(Obj(Fields(Settled(e))), Obj(Fields(Settled(f))), front);
  }
}
