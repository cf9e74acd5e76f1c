/** The dated document registry (assistant/registry.py). */
module Registry {
  import opened Enumeration
  import opened Sorting
  import opened Strings
  import opened Wrappers

  /** A calendar day, as its day number. */
  type Date = int

  datatype DocumentKind = PolicyCircular | RateSheet | KfsTemplate | Faq | Regulation | ProductSheet

  /** What a document's content hash covers. */
  datatype Fingerprint = Fingerprint(docId: string, version: string, effectiveFrom: Date, effectiveTo: Option<Date>, text: string)

  datatype Document = Document(
    docId: string, title: string, kind: DocumentKind, owner: string, effectiveFrom: Date, text: string, version: string,
    language: string, effectiveTo: Option<Date>, productTags: seq<string>, supersedes: seq<string>, sourceUri: string)
  {
    /** In force from the first day to the last, both included. */
    predicate IsEffectiveOn(asOf: Date) {
      !(asOf < effectiveFrom) && !(effectiveTo.Some? && asOf > effectiveTo.value)
    }

    function CitationKey(): string {
      docId + "@" + version
    }

    function Content(): Fingerprint {
      Fingerprint(docId, version, effectiveFrom, effectiveTo, text)
    }
  }

  /** A day, optionally narrowed by kind, product tag and language. */
  datatype Query = Query(asOf: Date, kind: Option<DocumentKind>, product: Option<string>, language: Option<string>) {
    predicate Admits(d: Document) {
      && d.IsEffectiveOn(asOf)
      && (kind.Some? ==> d.kind == kind.value)
      && (product.Some? ==> product.value in d.productTags)
      && (language.Some? ==> d.language == language.value)
    }
  }

  datatype RegistryError = NoId | NoTitle | NoOwner | Undated | EndsBeforeItBegins | NoVersion | NoText | DifferentContent

  lemma StripsToNothing(s: string)
    ensures Strip(s) == "" <==> !Inked(s)
  {
    hide Strip;
    if Inked(s) {
      StripTrims(s);
    } else {
      BlankStrips(s);
    }
  }

  /** The constructor's rules, in order; an undated document cannot be built. */
  function NewDocument(docId: string, title: string, kind: DocumentKind, owner: string, effectiveFrom: Option<Date>,
                       text: string, version: string, language: string, effectiveTo: Option<Date>,
                       productTags: seq<string>, supersedes: seq<string>, sourceUri: string): (r: Result<Document, RegistryError>)
    ensures r.Ok? <==> (docId != "" && Inked(title) && Inked(owner) && Inked(version) && Inked(text) && effectiveFrom.Some? &&
                        (effectiveTo.Some? ==> effectiveFrom.value <= effectiveTo.value))
    ensures r.Ok? ==> r.value.IsEffectiveOn(r.value.effectiveFrom)
    ensures r.Ok? ==>
      && r.value.docId == docId && r.value.title == title && r.value.kind == kind && r.value.owner == owner
      && Some(r.value.effectiveFrom) == effectiveFrom && r.value.effectiveTo == effectiveTo && r.value.version == version
      && r.value.text == text && r.value.language == language && r.value.productTags == productTags
      && r.value.supersedes == supersedes && r.value.sourceUri == sourceUri
    ensures r == Err(NoId) <==> docId == ""
    ensures r == Err(NoTitle) ==> !Inked(title)
    ensures r == Err(NoOwner) ==> !Inked(owner)
    ensures r == Err(Undated) ==> effectiveFrom == None && docId != "" && Inked(title) && Inked(owner)
    ensures r == Err(EndsBeforeItBegins) ==> effectiveTo.Some? && effectiveFrom.Some? && effectiveTo.value < effectiveFrom.value
    ensures r == Err(NoVersion) ==> !Inked(version)
    ensures r == Err(NoText) ==> !Inked(text)
  {
    StripsToNothing(title);
    StripsToNothing(owner);
    StripsToNothing(version);
    StripsToNothing(text);
    if docId == "" then Err(NoId)
    else if Strip(title) == "" then Err(NoTitle)
    else if Strip(owner) == "" then Err(NoOwner)
    else if effectiveFrom.None? then Err(Undated)
    else if effectiveTo.Some? && effectiveTo.value < effectiveFrom.value then Err(EndsBeforeItBegins)
    else if Strip(version) == "" then Err(NoVersion)
    else if Strip(text) == "" then Err(NoText)
    else Ok(Document(docId, title, kind, owner, effectiveFrom.value, text, version, language, effectiveTo, productTags,
                     supersedes, sourceUri))
  }

  /** A circular that ends and its open-ended successor leave no day uncovered and no day covered twice
      exactly when the successor begins the day after: both ends of a window count. */
  lemma HandoverDay(earlier: Document, later: Document)
    requires earlier.effectiveTo.Some? && earlier.effectiveFrom <= earlier.effectiveTo.value && later.effectiveTo.None?
    ensures (forall day :: day >= earlier.effectiveFrom ==> (earlier.IsEffectiveOn(day) <==> !later.IsEffectiveOn(day)))
        <==> later.effectiveFrom == earlier.effectiveTo.value + 1
  {
    var last := earlier.effectiveTo.value;
    if forall day :: day >= earlier.effectiveFrom ==> (earlier.IsEffectiveOn(day) <==> !later.IsEffectiveOn(day)) {
      assert earlier.IsEffectiveOn(last) && !earlier.IsEffectiveOn(last + 1);
      assert !later.IsEffectiveOn(last) && later.IsEffectiveOn(last + 1);
    }
  }

  /** Two versions of one document never share a citation key; nor do any two documents whose versions
      hold no '@'. */
  lemma CitationKeysDiffer(a: Document, b: Document)
    ensures a.docId == b.docId ==> (a.CitationKey() == b.CitationKey() <==> a.version == b.version)
    ensures '@' !in a.version && '@' !in b.version ==>
      (a.CitationKey() == b.CitationKey() <==> a.docId == b.docId && a.version == b.version)
  {
    var s, t := a.CitationKey(), b.CitationKey();
    assert s[|a.docId|] == '@' && t[|b.docId|] == '@';
    assert s[|a.docId| + 1..] == a.version && t[|b.docId| + 1..] == b.version;
    assert s[..|a.docId|] == a.docId && t[..|b.docId|] == b.docId;
    assert forall i :: |a.docId| < i < |s| ==> s[i] == a.version[i - |a.docId| - 1];
    assert forall i :: |b.docId| < i < |t| ==> t[i] == b.version[i - |b.docId| - 1];
  }

  /** The content hash covers the id, the version, both dates and the text, and nothing else. */
  lemma SameContent(a: Document, b: Document)
    ensures a.Content() == b.Content() <==>
      && a.docId == b.docId && a.version == b.version && a.text == b.text
      && a.effectiveFrom == b.effectiveFrom && a.effectiveTo == b.effectiveTo
  {
  }

  // ------------------------------------------------------------------ ingestion

  ghost predicate Injective(hash: Fingerprint -> string) {
    forall a, b :: hash(a) == hash(b) ==> a == b
  }

  ghost predicate Keyed(byKey: map<string, Document>) {
    forall key :: key in byKey ==> byKey[key].CitationKey() == key
  }

  /** The key is new, or stands for the same content. */
  predicate Accepts(byKey: map<string, Document>, d: Document, hash: Fingerprint -> string) {
    d.CitationKey() in byKey ==> hash(byKey[d.CitationKey()].Content()) == hash(d.Content())
  }

  /** Existing entries win. */
  function Registered(byKey: map<string, Document>, d: Document): map<string, Document> {
    if d.CitationKey() in byKey then byKey else byKey[d.CitationKey() := d]
  }

  /** r is the document registered under d's key. */
  predicate StandsFor(byKey: map<string, Document>, d: Document, r: Document) {
    d.CitationKey() in byKey && byKey[d.CitationKey()] == r
  }

  lemma StandingKept(byKey: map<string, Document>, added: Document, d: Document, r: Document)
    requires StandsFor(byKey, d, r)
    ensures StandsFor(Registered(byKey, added), d, r)
  {
    hide Document.CitationKey;
  }

  /** What a batch leaves behind, and whether all of it was accepted: it stops at the first refusal. */
  datatype Outcome = Outcome(byKey: map<string, Document>, ok: bool)

  function Batch(byKey: map<string, Document>, documents: seq<Document>, hash: Fingerprint -> string): Outcome {
    if documents == [] then Outcome(byKey, true)
    else
      var before := Batch(byKey, documents[..|documents| - 1], hash);
      var d := documents[|documents| - 1];
      if before.ok && Accepts(before.byKey, d, hash) then Outcome(Registered(before.byKey, d), true)
      else Outcome(before.byKey, false)
  }

  class DocumentRegistry {
    var byKey: map<string, Document>
    const hash: Fingerprint -> string

    ghost predicate Valid()
      reads this
    {
      Keyed(byKey)
    }

    constructor (hash: Fingerprint -> string)
      ensures Valid() && byKey == map[] && this.hash == hash
    {
      this.hash := hash;
      byKey := map[];
    }

    method Ingest(d: Document) returns (r: Result<Document, RegistryError>)
      requires Valid()
      modifies this
      ensures Valid()
      ensures r.Ok? <==> Accepts(old(byKey), d, hash)
      ensures byKey == if r.Ok? then Registered(old(byKey), d) else old(byKey)
      ensures r.Ok? ==> StandsFor(byKey, d, r.value)
      ensures r.Err? ==> r.error == DifferentContent
    {
      var key := d.CitationKey();
      if key in byKey {
        var existing := byKey[key];
        if hash(existing.Content()) == hash(d.Content()) {
          return Ok(existing);
        }
        return Err(DifferentContent);
      }
      byKey := byKey[key := d];
      r := Ok(d);
    }

    method IngestAll(documents: seq<Document>) returns (r: Result<seq<Document>, RegistryError>)
      requires Valid()
      modifies this
      ensures Valid()
      ensures Outcome(byKey, r.Ok?) == Batch(old(byKey), documents, hash)
      ensures r.Ok? ==> |r.value| == |documents|
      ensures r.Ok? ==> forall i :: 0 <= i < |documents| ==> StandsFor(byKey, documents[i], r.value[i])
    {
      hide Accepts, Registered, Document.CitationKey, StandsFor, Keyed, Document.Content;
      var out: seq<Document> := [];
      for i := 0 to |documents|
        invariant Valid()
        invariant Batch(old(byKey), documents[..i], hash) == Outcome(byKey, true)
        invariant |out| == i
        invariant forall j :: 0 <= j < i ==> StandsFor(byKey, documents[j], out[j])
      {
        assert documents[..i + 1][..i] == documents[..i];
        ghost var before := byKey;
        var one := Ingest(documents[i]);
        if one.Err? {
          BatchStops(old(byKey), documents, i + 1, hash);
          return Err(one.error);
        }
        forall j | 0 <= j < i
          ensures StandsFor(byKey, documents[j], out[j])
        {
          StandingKept(before, documents[i], documents[j], out[j]);
        }
        out := out + [one.value];
      }
      assert documents[..|documents|] == documents;
      r := Ok(out);
    }

    /** The documents in force, narrowed, in citation-key order. */
    method Effective(query: Query) returns (out: seq<Document>)
      requires Valid()
      ensures IsListing(out, InForce(byKey, query))
    {
      hide StringLe, Query.Admits, Document.CitationKey, Document.IsEffectiveOn, Passing, IsListing, InForce, Sort;
      var unordered := Elements(byKey.Keys);
      var keys := Sort(unordered, StringLe);
      KeysInOrder(unordered);
      forall key: string
        ensures key in keys <==> key in byKey
      {
        SortMembers(unordered, StringLe, key);
      }
      out := [];
      assert Passing(byKey, keys[..0], query) == [] by { NonePassing(byKey, keys[..0], query); }
      for i := 0 to |keys|
        invariant out == Passing(byKey, keys[..i], query)
      {
        PassingStep(byKey, keys, i, query);
        var document := byKey[keys[i]];
        AdmitsInSteps(query, document);
        if !document.IsEffectiveOn(query.asOf) {
          continue;
        }
        if query.kind.Some? && document.kind != query.kind.value {
          continue;
        }
        if query.product.Some? && query.product.value !in document.productTags {
          continue;
        }
        if query.language.Some? && document.language != query.language.value {
          continue;
        }
        out := out + [document];
      }
      assert keys[..|keys|] == keys;
      PassingIsListing(byKey, keys, query);
    }
  }

  lemma NonePassing(byKey: map<string, Document>, keys: seq<string>, query: Query)
    requires |keys| == 0
    ensures Passing(byKey, keys, query) == []
  {
  }

  lemma PassingStep(byKey: map<string, Document>, keys: seq<string>, i: nat, query: Query)
    requires i < |keys| && forall key :: key in keys ==> key in byKey
    ensures var before, d := Passing(byKey, keys[..i], query), byKey[keys[i]];
            Passing(byKey, keys[..i + 1], query) == if query.Admits(d) then before + [d] else before
  {
    hide Query.Admits;
    assert keys[..i + 1][..i] == keys[..i];
  }

  lemma AdmitsInSteps(query: Query, d: Document)
    ensures query.Admits(d) <==> (d.IsEffectiveOn(query.asOf)
      && !(query.kind.Some? && d.kind != query.kind.value)
      && !(query.product.Some? && query.product.value !in d.productTags)
      && !(query.language.Some? && d.language != query.language.value))
  {
  }

  lemma {:induction false} BatchStops(byKey: map<string, Document>, documents: seq<Document>, n: nat, hash: Fingerprint -> string)
    requires n <= |documents| && !Batch(byKey, documents[..n], hash).ok
    ensures Batch(byKey, documents, hash) == Batch(byKey, documents[..n], hash)
  {
    if n == |documents| {
      assert documents[..n] == documents;
    } else {
      var front := documents[..|documents| - 1];
      assert front[..n] == documents[..n];
      BatchStops(byKey, front, n, hash);
    }
  }

  /** A citation key, once registered, stands for one document for ever. */
  lemma {:induction false} KeysAreKept(byKey: map<string, Document>, documents: seq<Document>, hash: Fingerprint -> string, key: string)
    requires key in byKey
    ensures var after := Batch(byKey, documents, hash).byKey;
            key in after && after[key] == byKey[key]
  {
    if documents != [] {
      KeysAreKept(byKey, documents[..|documents| - 1], hash, key);
    }
  }

  /** A new entry came with the batch, and an accepted document's key stands for its content. */
  lemma {:induction false} BatchContents(byKey: map<string, Document>, documents: seq<Document>, hash: Fingerprint -> string)
    requires Injective(hash) && Batch(byKey, documents, hash).ok
    ensures forall key :: key in Batch(byKey, documents, hash).byKey ==> key in byKey || exists i :: 0 <= i < |documents| && documents[i].CitationKey() == key
    ensures forall i :: 0 <= i < |documents| ==> HoldsContent(Batch(byKey, documents, hash).byKey, documents[i])
  {
    hide Accepts, Injective;
    if documents != [] {
      var n := |documents| - 1;
      var front, d := documents[..n], documents[n];
      BatchContents(byKey, front, hash);
      var before := Batch(byKey, front, hash).byKey;
      AcceptedContent(before, d, hash);
      assert Batch(byKey, documents, hash).byKey == Registered(before, d);
      forall key | key in Registered(before, d)
        ensures key in byKey || exists i :: 0 <= i < |documents| && documents[i].CitationKey() == key
      {
        if key !in byKey {
          if key in before {
            var i :| 0 <= i < |front| && front[i].CitationKey() == key;
            assert documents[i].CitationKey() == key;
          } else {
            assert documents[n].CitationKey() == key;
          }
        }
      }
      forall i | 0 <= i < |documents|
        ensures HoldsContent(Registered(before, d), documents[i])
      {
        if i < n {
          assert HoldsContent(before, front[i]);
        }
      }
    }
  }

  ghost predicate HoldsContent(byKey: map<string, Document>, d: Document) {
    d.CitationKey() in byKey && byKey[d.CitationKey()].Content() == d.Content()
  }

  lemma AcceptedContent(byKey: map<string, Document>, d: Document, hash: Fingerprint -> string)
    requires Injective(hash) && Accepts(byKey, d, hash)
    ensures HoldsContent(Registered(byKey, d), d)
  {
  }

  lemma HeldIsAccepted(byKey: map<string, Document>, d: Document, hash: Fingerprint -> string)
    requires HoldsContent(byKey, d) || d.CitationKey() !in byKey
    ensures Accepts(byKey, d, hash)
  {
  }

  /** No key of the batch stands for two contents, within it or against what is registered. */
  ghost predicate Consistent(byKey: map<string, Document>, documents: seq<Document>) {
    && (forall i :: 0 <= i < |documents| ==> documents[i].CitationKey() in byKey ==> HoldsContent(byKey, documents[i]))
    && (forall i, j :: 0 <= i < j < |documents| ==> SameKeySameContent(documents[i], documents[j]))
  }

  ghost predicate SameKeySameContent(a: Document, b: Document) {
    a.CitationKey() == b.CitationKey() ==> a.Content() == b.Content()
  }

  /** A batch is accepted exactly when it is consistent, so acceptance does not depend on the order of
      the documents. */
  lemma {:induction false} BatchAccepted(byKey: map<string, Document>, documents: seq<Document>, hash: Fingerprint -> string)
    requires Injective(hash)
    ensures Batch(byKey, documents, hash).ok <==> Consistent(byKey, documents)
  {
    hide Injective, Accepts, Registered, Consistent;
    if documents == [] {
      NothingToRegister(byKey);
    } else {
      var n := |documents| - 1;
      var front, d := documents[..n], documents[n];
      assert documents == front + [d];
      BatchAccepted(byKey, front, hash);
      ConsistentGrows(byKey, front, d);
      if Batch(byKey, front, hash).ok {
        LastAccepted(byKey, front, d, hash);
      }
    }
  }

  lemma NothingToRegister(byKey: map<string, Document>)
    ensures Consistent(byKey, [])
  {
  }

  ghost predicate FitsIn(byKey: map<string, Document>, documents: seq<Document>, d: Document) {
    && (d.CitationKey() in byKey ==> HoldsContent(byKey, d))
    && (forall i :: 0 <= i < |documents| ==> SameKeySameContent(documents[i], d))
  }

  lemma ConsistentGrows(byKey: map<string, Document>, documents: seq<Document>, d: Document)
    ensures Consistent(byKey, documents + [d]) <==> Consistent(byKey, documents) && FitsIn(byKey, documents, d)
  {
    hide HoldsContent, SameKeySameContent;
    var all, n := documents + [d], |documents|;
    assert all[n] == d && forall i :: 0 <= i < n ==> all[i] == documents[i];
    if Consistent(byKey, all) {
      assert forall i :: 0 <= i < n ==> SameKeySameContent(all[i], all[n]);
    }
  }

  lemma LastAccepted(byKey: map<string, Document>, documents: seq<Document>, d: Document, hash: Fingerprint -> string)
    requires Injective(hash) && Batch(byKey, documents, hash).ok
    ensures Accepts(Batch(byKey, documents, hash).byKey, d, hash) <==> FitsIn(byKey, documents, d)
  {
    var after := Batch(byKey, documents, hash).byKey;
    BatchContents(byKey, documents, hash);
    var key := d.CitationKey();
    if key in byKey {
      KeysAreKept(byKey, documents, hash, key);
    }
    hide Batch;
    if FitsIn(byKey, documents, d) {
      if key in after && key !in byKey {
        var i :| 0 <= i < |documents| && documents[i].CitationKey() == key;
        assert SameKeySameContent(documents[i], d) && HoldsContent(after, documents[i]);
      }
      HeldIsAccepted(after, d, hash);
    }
    if Accepts(after, d, hash) {
      AcceptedContent(after, d, hash);
      forall i | 0 <= i < |documents|
        ensures SameKeySameContent(documents[i], d)
      {
        assert HoldsContent(after, documents[i]);
      }
    }
  }

  /** The content hash leaves the tags, the language and the kind out, so a document resubmitted with
      other tags is accepted and the registry keeps the tags it had. */
  lemma ResubmittedTagsAreDropped(byKey: map<string, Document>, d: Document, tags: seq<string>, hash: Fingerprint -> string)
    requires Keyed(byKey) && d.CitationKey() in byKey && byKey[d.CitationKey()] == d
    ensures var again := d.(productTags := tags);
            && Batch(byKey, [again], hash) == Outcome(byKey, true)
            && (byKey[again.CitationKey()] == again <==> tags == d.productTags)
  {
    var again := d.(productTags := tags);
    assert again.Content() == d.Content() && again.CitationKey() == d.CitationKey();
    assert [again][..0] == [];
  }

  // -------------------------------------------------------------------- listing

  ghost function InForce(byKey: map<string, Document>, query: Query): set<Document> {
    set key | key in byKey && query.Admits(byKey[key]) :: byKey[key]
  }

  /** What is listed for a query: the registered documents that begin on or before the day and do not end
      before it, of the kind, with the tag and in the language asked for, where one is asked for. */
  lemma ListedExactly(byKey: map<string, Document>, query: Query, d: Document)
    ensures d in InForce(byKey, query) <==>
      && d in byKey.Values
      && d.effectiveFrom <= query.asOf && (d.effectiveTo.Some? ==> query.asOf <= d.effectiveTo.value)
      && query.kind in {None, Some(d.kind)}
      && (query.product.None? || exists i :: 0 <= i < |d.productTags| && d.productTags[i] == query.product.value)
      && query.language in {None, Some(d.language)}
  {
    if d in byKey.Values {
      var key :| key in byKey && byKey[key] == d;
      assert query.Admits(d) ==> byKey[key] in InForce(byKey, query);
    }
  }

  function Passing(byKey: map<string, Document>, keys: seq<string>, query: Query): seq<Document>
    requires forall key :: key in keys ==> key in byKey
  {
    if keys == [] then []
    else
      var front, d := Passing(byKey, keys[..|keys| - 1], query), byKey[keys[|keys| - 1]];
      if query.Admits(d) then front + [d] else front
  }

  ghost predicate KeySorted(documents: seq<Document>) {
    forall i, j :: 0 <= i < j < |documents| ==> KeyBefore(documents[i], documents[j])
  }

  predicate KeyBefore(a: Document, b: Document) {
    StringLe(a.CitationKey(), b.CitationKey()) && a.CitationKey() != b.CitationKey()
  }

  /** The members of a set of documents, in strictly ascending citation-key order. */
  ghost predicate IsListing(out: seq<Document>, documents: set<Document>) {
    KeySorted(out) && forall d :: d in out <==> d in documents
  }

  lemma StringOrder()
    ensures TotalPreorder(StringLe) && Antisymmetric(StringLe)
  {
    hide StringLe;
    forall a: string, b: string
      ensures StringLe(a, b) || StringLe(b, a)
    {
      StringLeTotal(a, b);
    }
    forall a: string, b: string, c: string | StringLe(a, b) && StringLe(b, c)
      ensures StringLe(a, c)
    {
      StringLeTransitive(a, b, c);
    }
    forall a: string, b: string | StringLe(a, b) && StringLe(b, a)
      ensures a == b
    {
      StringLeAntisymmetric(a, b);
    }
  }

  lemma KeysInOrder(keys: seq<string>)
    requires Distinct(keys)
    ensures Distinct(Sort(keys, StringLe)) && Sorted(Sort(keys, StringLe), StringLe)
  {
    StringOrder();
    SortDistinct(keys, StringLe);
    SortSorted(keys, StringLe);
  }

  ghost predicate KeyIn(d: Document, keys: seq<string>) {
    d.CitationKey() in keys
  }

  /** The admitted documents of a key list, in that list's order. */
  lemma {:induction false} PassingMembers(byKey: map<string, Document>, keys: seq<string>, query: Query)
    requires Keyed(byKey) && (forall key :: key in keys ==> key in byKey)
    requires Distinct(keys) && Sorted(keys, StringLe)
    ensures KeySorted(Passing(byKey, keys, query))
    ensures forall d :: d in Passing(byKey, keys, query) <==> KeyIn(d, keys) && byKey[d.CitationKey()] == d && query.Admits(d)
  {
    hide StringLe, Query.Admits, Document.CitationKey;
    if keys != [] {
      var n := |keys| - 1;
      var front, last := keys[..n], byKey[keys[n]];
      PassingMembers(byKey, front, query);
      var before := Passing(byKey, front, query);
      assert last.CitationKey() == keys[n] && keys == front + [keys[n]];
      forall i | 0 <= i < |before|
        ensures KeyBefore(before[i], last)
      {
        assert before[i] in before;
        var at :| 0 <= at < n && front[at] == before[i].CitationKey();
        assert StringLe(keys[at], keys[n]) && keys[at] != keys[n];
      }
    }
  }

  lemma PassingIsListing(byKey: map<string, Document>, keys: seq<string>, query: Query)
    requires Keyed(byKey) && (forall key :: key in keys <==> key in byKey)
    requires Distinct(keys) && Sorted(keys, StringLe)
    ensures IsListing(Passing(byKey, keys, query), InForce(byKey, query))
  {
    hide StringLe, Query.Admits, Document.CitationKey, Passing;
    PassingMembers(byKey, keys, query);
  }

  lemma EmptyListing(out: seq<Document>, documents: set<Document>)
    requires IsListing(out, documents)
    ensures out == [] <==> documents == {}
  {
    if out != [] {
      assert out[0] in documents;
    }
    assert forall d :: d in documents ==> d in out;
  }

  /** Citation-key order leaves one listing of any set. */
  lemma {:induction false} OneListing(a: seq<Document>, b: seq<Document>, documents: set<Document>)
    requires IsListing(a, documents) && IsListing(b, documents)
    ensures a == b
  {
    hide IsListing;
    EmptyListing(a, documents);
    EmptyListing(b, documents);
    if a != [] {
      var n, m := |a| - 1, |b| - 1;
      LastOfListing(a, b, documents);
      ListingFront(a, documents);
      ListingFront(b, documents);
      OneListing(a[..n], b[..m], documents - {a[n]});
      assert a == a[..n] + [a[n]] && b == b[..m] + [b[m]];
    }
  }

  lemma LastOfListing(a: seq<Document>, b: seq<Document>, documents: set<Document>)
    requires a != [] && b != [] && IsListing(a, documents) && IsListing(b, documents)
    ensures a[|a| - 1] == b[|b| - 1]
  {
    hide StringLe;
    var x, y := a[|a| - 1], b[|b| - 1];
    if x != y {
      assert x in documents && y in documents;
      var i :| 0 <= i < |a| && a[i] == y;
      var j :| 0 <= j < |b| && b[j] == x;
      assert KeyBefore(y, x) && KeyBefore(x, y);
      StringLeAntisymmetric(x.CitationKey(), y.CitationKey());
    }
  }

  lemma ListingFront(a: seq<Document>, documents: set<Document>)
    requires a != [] && IsListing(a, documents)
    ensures IsListing(a[..|a| - 1], documents - {a[|a| - 1]})
  {
    hide StringLe;
    var n := |a| - 1;
    forall d
      ensures d in a[..n] <==> d in documents - {a[n]}
    {
      assert a == a[..n] + [a[n]];
      if d in a[..n] {
        var i :| 0 <= i < n && a[i] == d;
        assert KeyBefore(a[i], a[n]);
      }
    }
  }
}
