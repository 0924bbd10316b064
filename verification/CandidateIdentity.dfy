/** Which review items denote the same candidate: their identity keys, and what sharing a key means. */
module CandidateIdentity {
  import opened Options
  import opened Order

  datatype SourceKind = Cts | Liepin

  /** Normalised identity text keeps letters and digits only, so it has no separator in it. */
  type Plain = s: string | ':' !in s witness ""

  datatype Fields = Fields(name: Plain, company: Plain, title: Plain, location: Plain)

  /** An empty identity or provider hash stands for an absent one. */
  datatype Evidence = Evidence(id: string, source: SourceKind, identity: string, providerHash: string)

  /** What identity depends on in a review item. `fields` is absent for masked or incomplete names. */
  datatype Subject = Subject(reviewId: string, evidence: seq<Evidence>, fields: Option<Fields>)

  /* ---------- Identity keys ---------- */

  function KindName(kind: SourceKind): string {
    match kind case Cts => "cts" case Liepin => "liepin"
  }

  function IdentityKey(id: string): string { "identity:" + id }

  function ProviderKey(kind: SourceKind, hash: string): string { "provider:" + KindName(kind) + ":" + hash }

  function CtsKey(hash: string): string { ProviderKey(Cts, hash) }

  function LiepinKey(hash: string): string { ProviderKey(Liepin, hash) }

  function HashKeys(x: Subject, kind: SourceKind): seq<string> {
    Mapped(SortedUnique(Hashes(x.evidence, kind)), if kind == Cts then CtsKey else LiepinKey)
  }

  function FieldKey(f: Fields): string {
    "field:name-company-title-location:" + (f.name + ":" + (f.company + ":" + (f.title + ":" + f.location)))
  }

  function ReviewKey(id: string): string { "review:" + id }

  function Identities(evidence: seq<Evidence>): seq<string> {
    if evidence == [] then []
    else (if evidence[0].identity != "" then [evidence[0].identity] else []) + Identities(evidence[1..])
  }

  function Hashes(evidence: seq<Evidence>, kind: SourceKind): seq<string> {
    if evidence == [] then []
    else (if evidence[0].source == kind && evidence[0].providerHash != "" then [evidence[0].providerHash] else [])
         + Hashes(evidence[1..], kind)
  }

  function Mapped(ids: seq<string>, f: string -> string): seq<string> {
    seq(|ids|, i requires 0 <= i < |ids| => f(ids[i]))
  }

  /** Runtime identities first, then provider hashes by source, then the field key; an item with
      none of them is identified by its review id alone. */
  function Keys(x: Subject): (r: seq<string>)
    ensures r != []
  {
    var keys := Mapped(SortedUnique(Identities(x.evidence)), IdentityKey)
              + HashKeys(x, Cts) + HashKeys(x, Liepin)
              + if x.fields.Some? then [FieldKey(x.fields.value)] else [];
    if keys == [] then [ReviewKey(x.reviewId)] else keys
  }

  ghost predicate HasIdentity(x: Subject, id: string) {
    id != "" && exists e :: e in x.evidence && e.identity == id
  }

  ghost predicate HasHash(x: Subject, kind: SourceKind, hash: string) {
    hash != "" && exists e :: e in x.evidence && e.source == kind && e.providerHash == hash
  }

  ghost predicate Anonymous(x: Subject) {
    x.fields.None? && forall e :: e in x.evidence ==> e.identity == "" && e.providerHash == ""
  }

  /** The intended meaning of sharing a key. */
  ghost predicate SameCandidate(x: Subject, y: Subject) {
    || (exists id :: HasIdentity(x, id) && HasIdentity(y, id))
    || (exists kind, hash :: HasHash(x, kind, hash) && HasHash(y, kind, hash))
    || (x.fields.Some? && x.fields == y.fields)
    || (Anonymous(x) && Anonymous(y) && x.reviewId == y.reviewId)
  }

  lemma IdentitiesIff(evidence: seq<Evidence>, id: string)
    ensures id in Identities(evidence) <==> id != "" && exists e :: e in evidence && e.identity == id
  {
    if evidence != [] {
      IdentitiesIff(evidence[1..], id);
      assert forall e :: e in evidence <==> e == evidence[0] || e in evidence[1..];
    }
  }

  lemma HashesIff(evidence: seq<Evidence>, kind: SourceKind, hash: string)
    ensures hash in Hashes(evidence, kind) <==>
            hash != "" && exists e :: e in evidence && e.source == kind && e.providerHash == hash
  {
    if evidence != [] {
      HashesIff(evidence[1..], kind, hash);
      assert forall e :: e in evidence <==> e == evidence[0] || e in evidence[1..];
    }
  }

  lemma MappedIff(ids: seq<string>, f: string -> string, key: string)
    ensures key in Mapped(ids, f) <==> exists id :: id in ids && key == f(id)
  {
    if key in Mapped(ids, f) {
      var i :| 0 <= i < |Mapped(ids, f)| && Mapped(ids, f)[i] == key;
      assert ids[i] in ids;
    }
    if id :| id in ids && key == f(id) {
      var i :| 0 <= i < |ids| && ids[i] == id;
      assert Mapped(ids, f)[i] == key;
    }
  }

  /** The keys of an item, read off its evidence and fields. */
  lemma KeysIff(x: Subject, key: string)
    ensures key in Keys(x) <==>
            || (exists id :: HasIdentity(x, id) && key == IdentityKey(id))
            || (exists kind, hash :: HasHash(x, kind, hash) && key == ProviderKey(kind, hash))
            || (x.fields.Some? && key == FieldKey(x.fields.value))
            || (Anonymous(x) && key == ReviewKey(x.reviewId))
  {
    var a := Mapped(SortedUnique(Identities(x.evidence)), IdentityKey);
    var b, c := HashKeys(x, Cts), HashKeys(x, Liepin);
    SortedUniqueIs(Identities(x.evidence));
    MappedIff(SortedUnique(Identities(x.evidence)), IdentityKey, key);
    forall id {
      IdentitiesIff(x.evidence, id);
    }
    HashKeysIff(x, Cts, key);
    HashKeysIff(x, Liepin, key);
    assert key in a <==> exists id :: HasIdentity(x, id) && key == IdentityKey(id);
    NoKeysIff(x);
  }

  lemma HashKeysIff(x: Subject, kind: SourceKind, key: string)
    ensures key in HashKeys(x, kind) <==> exists hash :: HasHash(x, kind, hash) && key == ProviderKey(kind, hash)
  {
    var f := if kind == Cts then CtsKey else LiepinKey;
    SortedUniqueIs(Hashes(x.evidence, kind));
    MappedIff(SortedUnique(Hashes(x.evidence, kind)), f, key);
    if hash :| HasHash(x, kind, hash) && key == ProviderKey(kind, hash) {
      HashesIff(x.evidence, kind, hash);
      assert hash in SortedUnique(Hashes(x.evidence, kind)) && key == f(hash);
    }
    if hash :| hash in SortedUnique(Hashes(x.evidence, kind)) && key == f(hash) {
      HashesIff(x.evidence, kind, hash);
      assert HasHash(x, kind, hash) && key == ProviderKey(kind, hash);
    }
  }

  lemma NoKeysIff(x: Subject)
    ensures Anonymous(x) <==>
            && x.fields.None? && SortedUnique(Identities(x.evidence)) == []
            && HashKeys(x, Cts) == [] && HashKeys(x, Liepin) == []
  {
    var ids, hs, hl := Identities(x.evidence), Hashes(x.evidence, Cts), Hashes(x.evidence, Liepin);
    SortedUniqueIs(ids);
    SortedUniqueIs(hs);
    SortedUniqueIs(hl);
    if Anonymous(x) {
      if ids != [] {
        IdentitiesIff(x.evidence, ids[0]);
      }
      if hs != [] {
        HashesIff(x.evidence, Cts, hs[0]);
      }
      if hl != [] {
        HashesIff(x.evidence, Liepin, hl[0]);
      }
    } else if e :| e in x.evidence && !(e.identity == "" && e.providerHash == "") {
      IdentitiesIff(x.evidence, e.identity);
      HashesIff(x.evidence, e.source, e.providerHash);
    }
  }

  /** Listed once each, in increasing order. */
  ghost predicate Ascending(ids: seq<string>) {
    forall i, j :: 0 <= i < j < |ids| ==> Leq(Codes(ids[i]), Codes(ids[j])) && ids[i] != ids[j]
  }

  ghost function Prefixed(prefix: string, ids: seq<string>): seq<string> {
    seq(|ids|, i requires 0 <= i < |ids| => prefix + ids[i])
  }

  ghost function FieldKeys(x: Subject): seq<string> {
    match x.fields
    case None => []
    case Some(f) =>
      ["field:name-company-title-location:" + (f.name + ":" + (f.company + ":" + (f.title + ":" + f.location)))]
  }

  /** The order of the keys, the first of which names a new group: the runtime identities, the CTS
      hashes and the Liepin hashes, each in increasing order, then the key of the fields. */
  lemma KeysInOrder(x: Subject) returns (ids: seq<string>, cts: seq<string>, liepin: seq<string>)
    ensures Ascending(ids) && forall id :: id in ids <==> HasIdentity(x, id)
    ensures Ascending(cts) && forall hash :: hash in cts <==> HasHash(x, Cts, hash)
    ensures Ascending(liepin) && forall hash :: hash in liepin <==> HasHash(x, Liepin, hash)
    ensures Anonymous(x) ==> Keys(x) == ["review:" + x.reviewId]
    ensures !Anonymous(x) ==>
              Keys(x) == Prefixed("identity:", ids) + Prefixed("provider:cts:", cts)
                       + Prefixed("provider:liepin:", liepin) + FieldKeys(x)
  {
    ids := SortedUnique(Identities(x.evidence));
    cts, liepin := SortedUnique(Hashes(x.evidence, Cts)), SortedUnique(Hashes(x.evidence, Liepin));
    SortedUniqueIs(Identities(x.evidence));
    SortedUniqueIs(Hashes(x.evidence, Cts));
    SortedUniqueIs(Hashes(x.evidence, Liepin));
    forall id: string
      ensures id in ids <==> HasIdentity(x, id)
      ensures id in cts <==> HasHash(x, Cts, id)
      ensures id in liepin <==> HasHash(x, Liepin, id)
    {
      IdentitiesIff(x.evidence, id);
      HashesIff(x.evidence, Cts, id);
      HashesIff(x.evidence, Liepin, id);
    }
    NoKeysIff(x);
    KeysSpelled(x, ids, cts, liepin);
  }

  lemma KeysSpelled(x: Subject, ids: seq<string>, cts: seq<string>, liepin: seq<string>)
    requires ids == SortedUnique(Identities(x.evidence))
    requires cts == SortedUnique(Hashes(x.evidence, Cts)) && liepin == SortedUnique(Hashes(x.evidence, Liepin))
    ensures var keys := Prefixed("identity:", ids) + Prefixed("provider:cts:", cts)
                      + Prefixed("provider:liepin:", liepin) + FieldKeys(x);
            if keys == [] then Keys(x) == ["review:" + x.reviewId] else Keys(x) == keys
  {
    hide SortedUnique, Identities, Hashes;
    assert Mapped(ids, IdentityKey) == Prefixed("identity:", ids);
    ProviderPrefixed(cts);
    ProviderPrefixed(liepin);
  }

  lemma ProviderPrefixed(hashes: seq<string>)
    ensures Mapped(hashes, CtsKey) == Prefixed("provider:cts:", hashes)
    ensures Mapped(hashes, LiepinKey) == Prefixed("provider:liepin:", hashes)
  {
    assert "provider:" + KindName(Cts) + ":" == "provider:cts:";
    assert "provider:" + KindName(Liepin) + ":" == "provider:liepin:";
    forall i | 0 <= i < |hashes|
      ensures Mapped(hashes, CtsKey)[i] == "provider:cts:" + hashes[i]
      ensures Mapped(hashes, LiepinKey)[i] == "provider:liepin:" + hashes[i]
    {
      assert CtsKey(hashes[i]) == ProviderKey(Cts, hashes[i]) && LiepinKey(hashes[i]) == ProviderKey(Liepin, hashes[i]);
    }
  }

  lemma CutAtColon(a: Plain, b: string, c: Plain, d: string)
    requires a + ":" + b == c + ":" + d
    ensures a == c && b == d
  {
    var s, t := a + ":" + b, c + ":" + d;
    assert |a| == |c| by {
      assert forall i :: 0 <= i < |a| ==> s[i] == a[i];
      assert forall i :: 0 <= i < |c| ==> t[i] == c[i];
      assert s[|a|] == ':' && t[|c|] == ':';
    }
    assert s[..|a|] == a && t[..|c|] == c && s[|a| + 1..] == b && t[|c| + 1..] == d;
  }

  lemma FieldKeyInjective(f: Fields, g: Fields)
    requires FieldKey(f) == FieldKey(g)
    ensures f == g
  {
    var p := "field:name-company-title-location:";
    var a, b := f.title + ":" + f.location, g.title + ":" + g.location;
    var c, d := f.company + ":" + a, g.company + ":" + b;
    assert FieldKey(f)[|p|..] == f.name + ":" + c && FieldKey(g)[|p|..] == g.name + ":" + d;
    CutAtColon(f.name, c, g.name, d);
    CutAtColon(f.company, a, g.company, b);
    CutAtColon(f.title, f.location, g.title, g.location);
  }

  lemma ProviderKeyInjective(kind: SourceKind, hash: string, kind': SourceKind, hash': string)
    requires ProviderKey(kind, hash) == ProviderKey(kind', hash')
    ensures kind == kind' && hash == hash'
  {
    assert ProviderKey(kind, hash)[9] == KindName(kind)[0] && ProviderKey(kind', hash')[9] == KindName(kind')[0];
    var p := "provider:" + KindName(kind) + ":";
    assert ProviderKey(kind, hash)[|p|..] == hash && ProviderKey(kind', hash')[|p|..] == hash';
  }

  lemma IdentityKeyInjective(id: string, id': string)
    ensures IdentityKey(id) == IdentityKey(id') ==> id == id'
    ensures ReviewKey(id) == ReviewKey(id') ==> id == id'
  {
    assert IdentityKey(id)[9..] == id && IdentityKey(id')[9..] == id';
    assert ReviewKey(id)[7..] == id && ReviewKey(id')[7..] == id';
  }

  ghost predicate Shares(a: seq<string>, b: seq<string>) {
    exists k :: k in a && k in b
  }

  lemma SharedKeyIsSame(x: Subject, y: Subject, k: string)
    requires k in Keys(x) && k in Keys(y)
    ensures SameCandidate(x, y)
  {
    KeysIff(x, k);
    KeysIff(y, k);
    hide Keys;
    assert k[0] == 'i' || k[0] == 'p' || k[0] == 'f' || k[0] == 'r';
    if id :| HasIdentity(x, id) && k == IdentityKey(id) {
      var id' :| HasIdentity(y, id') && k == IdentityKey(id');
      IdentityKeyInjective(id, id');
    } else if kind, hash :| HasHash(x, kind, hash) && k == ProviderKey(kind, hash) {
      var kind', hash' :| HasHash(y, kind', hash') && k == ProviderKey(kind', hash');
      ProviderKeyInjective(kind, hash, kind', hash');
    } else if x.fields.Some? && k == FieldKey(x.fields.value) {
      FieldKeyInjective(x.fields.value, y.fields.value);
    } else {
      IdentityKeyInjective(x.reviewId, y.reviewId);
    }
  }

  /** Two items share an identity key exactly when they share a runtime identity, a provider hash
      of the same source or a full set of fields, or are the same anonymous review. */
  lemma SharedKeyMeansSameCandidate(x: Subject, y: Subject)
    ensures Shares(Keys(x), Keys(y)) <==> SameCandidate(x, y)
  {
    if k :| k in Keys(x) && k in Keys(y) {
      SharedKeyIsSame(x, y, k);
    }
    hide Keys;
    if SameCandidate(x, y) {
      if id :| HasIdentity(x, id) && HasIdentity(y, id) {
        KeysIff(x, IdentityKey(id));
        KeysIff(y, IdentityKey(id));
      } else if kind, hash :| HasHash(x, kind, hash) && HasHash(y, kind, hash) {
        KeysIff(x, ProviderKey(kind, hash));
        KeysIff(y, ProviderKey(kind, hash));
      } else if x.fields.Some? && x.fields == y.fields {
        KeysIff(x, FieldKey(x.fields.value));
        KeysIff(y, FieldKey(x.fields.value));
      } else {
        KeysIff(x, ReviewKey(x.reviewId));
        KeysIff(y, ReviewKey(x.reviewId));
      }
    }
  }
}
