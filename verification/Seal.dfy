/** What a transparency-log seal signs: the digest of the canonical text of four response fields. */
module Seal {
  import opened Text
  import opened Json
  import opened Jcs
  import opened JcsWriter
  import Hex

  // ---------------------------------------------------------------- canonical fields

  /** How a raw field is decoded. */
  type Decoder = string -> Option<Value>

  /** The decoder the code uses: the first value of the text. */
  function DecodeField(raw: string): Option<Value> {
    match ReadValue(raw, MAX_NESTING)
    case None => None
    case Some((v, _)) => Some(v)
  }

  predicate Readable(decode: Decoder, fields: map<string, string>) {
    forall k :: k in fields ==> decode(fields[k]).Some?
  }

  function FieldsObject(decode: Decoder, fields: map<string, string>): Value
    requires Readable(decode, fields)
  {
    Obj(map k | k in fields :: decode(fields[k]).value)
  }

  /** `JCSCanonicalizeFields`. */
  ghost function CanonicalizeFields(lib: FloatLib, decode: Decoder, fields: map<string, string>): Option<string>
    requires Lawful(lib)
  {
    if Readable(decode, fields) && Printable(lib, FieldsObject(decode, fields)) then
      Some(Print(lib, FieldsObject(decode, fields)))
    else None
  }

  /** Parse every field, in whatever order the map yields them. */
  method ParseFields(decode: Decoder, fields: map<string, string>) returns (parsed: Option<Value>)
    ensures parsed == if Readable(decode, fields) then Some(FieldsObject(decode, fields)) else None
  {
    var members: map<string, Value> := map[];
    var left := fields.Keys;
    while left != {}
      invariant left <= fields.Keys && members.Keys == fields.Keys - left
      invariant forall k :: k in members ==> decode(fields[k]) == Some(members[k])
      decreases |left|
    {
      var k :| k in left;
      var v := decode(fields[k]);
      if v.None? {
        return None;
      }
      members := members[k := v.value];
      left := left - {k};
    }
    assert members.Keys == fields.Keys;
    assert members == map k | k in fields :: decode(fields[k]).value;
    return Some(Obj(members));
  }

  method JCSCanonicalizeFields(lib: FloatLib, decode: Decoder, fields: map<string, string>) returns (r: Option<string>)
    requires Lawful(lib)
    ensures r == CanonicalizeFields(lib, decode, fields)
  {
    var parsed := ParseFields(decode, fields);
    if parsed.None? {
      return None;
    }
    r := Canonical(lib, parsed.value);
  }

  /** The same names, and under each name the same JSON value. */
  ghost predicate SameFields(lib: FloatLib, decode: Decoder, f: map<string, string>, g: map<string, string>)
    requires Readable(decode, f) && Readable(decode, g)
  {
    f.Keys == g.Keys && forall k :: k in f ==> SameValue(lib, decode(f[k]).value, decode(g[k]).value)
  }

  lemma FieldsAreBound(lib: FloatLib, decode: Decoder, f: map<string, string>, g: map<string, string>)
    requires Lawful(lib)
    requires CanonicalizeFields(lib, decode, f).Some? && CanonicalizeFields(lib, decode, g).Some?
    ensures CanonicalizeFields(lib, decode, f) == CanonicalizeFields(lib, decode, g) <==> SameFields(lib, decode, f, g)
  {
    var v, w := FieldsObject(decode, f), FieldsObject(decode, g);
    PrintIsCanonical(lib, v, w);
    assert v.members.Keys == f.Keys && w.members.Keys == g.Keys;
  }

  // ---------------------------------------------------------------- the sealed fields

  /** A field of the response: its raw JSON when it was kept, and what marshalling the decoded
      field would give. */
  datatype Field = Field(raw: Option<string>, marshalled: Option<string>)

  datatype Response = Response(status: Field, schemaVersion: Field, payload: Field, evidenceRef: Field)

  function RawOrMarshal(f: Field): Option<string> {
    if f.raw.Some? then f.raw else f.marshalled
  }

  function SealedFields(r: Response): (fields: Option<map<string, string>>)
    ensures fields.Some? <==> RawOrMarshal(r.status).Some? && RawOrMarshal(r.schemaVersion).Some? &&
                              RawOrMarshal(r.payload).Some? && RawOrMarshal(r.evidenceRef).Some?
    ensures fields.Some? ==>
              && fields.value.Keys == {"status", "schemaVersion", "payload", "evidenceRef"}
              && Some(fields.value["status"]) == RawOrMarshal(r.status)
              && Some(fields.value["schemaVersion"]) == RawOrMarshal(r.schemaVersion)
              && Some(fields.value["payload"]) == RawOrMarshal(r.payload)
              && Some(fields.value["evidenceRef"]) == RawOrMarshal(r.evidenceRef)
  {
    match (RawOrMarshal(r.status), RawOrMarshal(r.schemaVersion), RawOrMarshal(r.payload), RawOrMarshal(r.evidenceRef))
    case (Some(s), Some(v), Some(p), Some(e)) =>
      Some(map["status" := s, "schemaVersion" := v, "payload" := p, "evidenceRef" := e])
    case _ => None
  }

  /** The text that is hashed. */
  ghost function SealedText(lib: FloatLib, r: Response): Option<string>
    requires Lawful(lib)
  {
    match SealedFields(r)
    case None => None
    case Some(fields) => CanonicalizeFields(lib, DecodeField, fields)
  }

  /** `computeSealDigest`; the hash is a parameter. */
  method ComputeSealDigest(lib: FloatLib, sha: string -> Hex.Digest, r: Response) returns (digest: Option<Hex.Digest>)
    requires Lawful(lib)
    ensures digest.Some? <==> SealedText(lib, r).Some?
    ensures digest.Some? ==> digest.value == sha(SealedText(lib, r).value)
  {
    var fields := SealedFields(r);
    if fields.None? {
      return None;
    }
    var text := JCSCanonicalizeFields(lib, DecodeField, fields.value);
    if text.None? {
      return None;
    }
    return Some(sha(text.value));
  }

  /** Two different texts with the same hash. */
  predicate IsCollision(sha: string -> Hex.Digest, t: string, u: string) {
    t != u && sha(t) == sha(u)
  }

  /** Main theorem: two responses are sealed over the same text exactly when their four fields hold the same
      JSON values, and have the same digest exactly when they do or the two texts are a collision. */
  lemma {:induction false} SealBindsTheFields(lib: FloatLib, sha: string -> Hex.Digest, r: Response, q: Response)
    requires Lawful(lib) && SealedText(lib, r).Some? && SealedText(lib, q).Some?
    ensures var same := SameFields(lib, DecodeField, SealedFields(r).value, SealedFields(q).value);
            var t, u := SealedText(lib, r).value, SealedText(lib, q).value;
            && (t == u <==> same)
            && (sha(t) == sha(u) <==> same || IsCollision(sha, t, u))
  {
    FieldsAreBound(lib, DecodeField, SealedFields(r).value, SealedFields(q).value);
  }

  // ---------------------------------------------------------------- sealed documents

  /** A JSON document as it stands in a text: after whitespace, and before anything that does not extend a number. */
  datatype Placed = Placed(ws: string, doc: Doc, tail: string)

  predicate IsPlaced(x: Placed) {
    AllWs(x.ws) && ValidDoc(x.doc) && Shallow(x.doc, MAX_NESTING) && EndsNumber(x.tail)
  }

  function TextOf(x: Placed): string {
    x.ws + DocText(x.doc) + x.tail
  }

  lemma DecodesDocument(x: Placed)
    requires IsPlaced(x)
    ensures DecodeField(TextOf(x)) == Some(Meaning(x.doc))
  {
    ReadsDoc(x.ws, x.doc, x.tail, MAX_NESTING);
  }

  datatype Documents = Documents(status: Placed, schemaVersion: Placed, payload: Placed, evidenceRef: Placed)

  predicate ArePlaced(d: Documents) {
    IsPlaced(d.status) && IsPlaced(d.schemaVersion) && IsPlaced(d.payload) && IsPlaced(d.evidenceRef)
  }

  /** The field holds this text: as its raw JSON, or without any as its marshalled value. */
  predicate Holds(f: Field, x: Placed) {
    f.raw == Some(TextOf(x)) || (f.raw.None? && f.marshalled == Some(TextOf(x)))
  }

  predicate HoldsDocuments(r: Response, d: Documents) {
    && Holds(r.status, d.status) && Holds(r.schemaVersion, d.schemaVersion)
    && Holds(r.payload, d.payload) && Holds(r.evidenceRef, d.evidenceRef)
  }

  predicate AllPrintable(lib: FloatLib, d: Documents)
    requires Lawful(lib) && ArePlaced(d)
  {
    && Printable(lib, Meaning(d.status.doc)) && Printable(lib, Meaning(d.schemaVersion.doc))
    && Printable(lib, Meaning(d.payload.doc)) && Printable(lib, Meaning(d.evidenceRef.doc))
  }

  ghost predicate SameDocuments(lib: FloatLib, d: Documents, e: Documents)
    requires ArePlaced(d) && ArePlaced(e)
  {
    && SameValue(lib, Meaning(d.status.doc), Meaning(e.status.doc))
    && SameValue(lib, Meaning(d.schemaVersion.doc), Meaning(e.schemaVersion.doc))
    && SameValue(lib, Meaning(d.payload.doc), Meaning(e.payload.doc))
    && SameValue(lib, Meaning(d.evidenceRef.doc), Meaning(e.evidenceRef.doc))
  }

  /** The four fields under their names. */
  predicate AreFields(fields: map<string, string>, d: Documents) {
    && fields.Keys == {"status", "schemaVersion", "payload", "evidenceRef"}
    && fields["status"] == TextOf(d.status) && fields["schemaVersion"] == TextOf(d.schemaVersion)
    && fields["payload"] == TextOf(d.payload) && fields["evidenceRef"] == TextOf(d.evidenceRef)
  }

  lemma FieldsOf(r: Response, d: Documents)
    requires HoldsDocuments(r, d)
    ensures SealedFields(r).Some? && AreFields(SealedFields(r).value, d)
  {
  }

  lemma FieldsAreDecoded(fields: map<string, string>, d: Documents)
    requires ArePlaced(d) && AreFields(fields, d)
    ensures DecodeField(fields["status"]) == Some(Meaning(d.status.doc))
    ensures DecodeField(fields["schemaVersion"]) == Some(Meaning(d.schemaVersion.doc))
    ensures DecodeField(fields["payload"]) == Some(Meaning(d.payload.doc))
    ensures DecodeField(fields["evidenceRef"]) == Some(Meaning(d.evidenceRef.doc))
    ensures Readable(DecodeField, fields)
  {
    DecodesDocument(d.status);
    DecodesDocument(d.schemaVersion);
    DecodesDocument(d.payload);
    DecodesDocument(d.evidenceRef);
  }

  /** Four names, one by one. */
  lemma PrintableAtFour(lib: FloatLib, f: map<string, string>, i: string, j: string, k: string, l: string)
    requires Lawful(lib) && f.Keys == {i, j, k, l} && Readable(DecodeField, f)
    ensures CanonicalizeFields(lib, DecodeField, f).Some? <==>
            && Printable(lib, DecodeField(f[i]).value) && Printable(lib, DecodeField(f[j]).value)
            && Printable(lib, DecodeField(f[k]).value) && Printable(lib, DecodeField(f[l]).value)
  {
    var members := FieldsObject(DecodeField, f).members;
    assert members.Keys == f.Keys;
    assert i in members && j in members && k in members && l in members;
  }

  lemma PrintableFields(lib: FloatLib, fields: map<string, string>, d: Documents)
    requires Lawful(lib) && ArePlaced(d) && AreFields(fields, d)
    ensures CanonicalizeFields(lib, DecodeField, fields).Some? <==> AllPrintable(lib, d)
  {
    FieldsAreDecoded(fields, d);
    PrintableAtFour(lib, fields, "status", "schemaVersion", "payload", "evidenceRef");
  }

  lemma SameAtFour(lib: FloatLib, f: map<string, string>, g: map<string, string>, i: string, j: string, k: string, l: string)
    requires f.Keys == g.Keys == {i, j, k, l} && Readable(DecodeField, f) && Readable(DecodeField, g)
    ensures SameFields(lib, DecodeField, f, g) <==>
            SameAt(lib, f, g, i) && SameAt(lib, f, g, j) && SameAt(lib, f, g, k) && SameAt(lib, f, g, l)
  {
  }

  ghost predicate SameAt(lib: FloatLib, f: map<string, string>, g: map<string, string>, k: string)
    requires k in f && k in g && DecodeField(f[k]).Some? && DecodeField(g[k]).Some?
  {
    SameValue(lib, DecodeField(f[k]).value, DecodeField(g[k]).value)
  }

  lemma SameFieldsOf(lib: FloatLib, f: map<string, string>, d: Documents, g: map<string, string>, e: Documents)
    requires ArePlaced(d) && AreFields(f, d) && ArePlaced(e) && AreFields(g, e)
    ensures Readable(DecodeField, f) && Readable(DecodeField, g)
    ensures SameFields(lib, DecodeField, f, g) <==> SameDocuments(lib, d, e)
  {
    FieldsAreDecoded(f, d);
    FieldsAreDecoded(g, e);
    SameAtFour(lib, f, g, "status", "schemaVersion", "payload", "evidenceRef");
  }

  /** Main theorem: a response whose four fields are JSON documents can be sealed exactly when all their numbers are finite
      doubles; and two such responses have the same digest exactly when the documents denote the same four values, however
      they are laid out and whatever stands behind them, or the two sealed texts are a collision. */
  lemma {:induction false} SealBindsTheDocuments(lib: FloatLib, sha: string -> Hex.Digest, r: Response, d: Documents, q: Response, e: Documents)
    requires Lawful(lib) && ArePlaced(d) && HoldsDocuments(r, d) && ArePlaced(e) && HoldsDocuments(q, e)
    ensures SealedText(lib, r).Some? <==> AllPrintable(lib, d)
    ensures AllPrintable(lib, d) && AllPrintable(lib, e) ==>
              && SealedText(lib, r).Some? && SealedText(lib, q).Some?
              && var t, u := SealedText(lib, r).value, SealedText(lib, q).value;
                 && (t == u <==> SameDocuments(lib, d, e))
                 && (sha(t) == sha(u) <==> SameDocuments(lib, d, e) || IsCollision(sha, t, u))
  {
    FieldsOf(r, d);
    FieldsOf(q, e);
    PrintableFields(lib, SealedFields(r).value, d);
    PrintableFields(lib, SealedFields(q).value, e);
    if AllPrintable(lib, d) && AllPrintable(lib, e) {
      SameFieldsOf(lib, SealedFields(r).value, d, SealedFields(q).value, e);
      SealBindsTheFields(lib, sha, r, q);
    }
  }
}
