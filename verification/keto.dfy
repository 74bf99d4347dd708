/** The Ory Keto permission client (`KetoPermissionService`,
    internal/permissions/keto_service.go): a document is mapped to a Keto
    object id `<taxpayer-key>:<year>`, and access is the answer of a Keto
    check for the relation `documents:<object>#viewer@<user>`. The HTTP round
    trip is a parameter `check`; the `%.0f` rendering of a float year is a
    parameter `renderFloat`. */
module Keto {
  import opened Wrappers
  import opened Seqs
  import opened Text
  import opened Models

  const Namespace: string := "documents"
  const Relation: string := "viewer"
  const UnknownYear: string := "unknown"
  const StatusOK: int := 200

  /** The year part of the object id: a float year rendered by `%.0f`, an
      integer year in decimal, anything else "unknown". */
  function YearText(doc: Document, renderFloat: bv64 -> string): (r: string)
    ensures "year" in doc.metadata && doc.metadata["year"].MInt? ==> ParseDecimal(r) == Some(doc.metadata["year"].i)
    ensures "year" !in doc.metadata || doc.metadata["year"].MString? || doc.metadata["year"].MOther? ==> r == UnknownYear
  {
    if "year" in doc.metadata then
      match doc.metadata["year"]
      case MFloat(bits) => renderFloat(bits)
      case MInt(i) => DecimalRoundTrip(i); IntToDecimal(i)
      case _ => UnknownYear
    else UnknownYear
  }

  /** The taxpayer in kebab-case: spaces become hyphens, then lower-case. */
  function TaxpayerKey(taxpayer: string): (r: string)
    ensures |r| == |taxpayer|
    ensures forall i :: 0 <= i < |r| ==> r[i] != ' ' && !IsUpper(r[i])
    ensures forall i :: 0 <= i < |r| ==> (r[i] == '-' <==> taxpayer[i] in " -")
    ensures EqualFold(r, ReplaceChar(taxpayer, ' ', '-'))
  {
    ToLower(ReplaceChar(taxpayer, ' ', '-'))
  }

  /** `documentToKetoObject`: empty exactly when the document has no string
      taxpayer. */
  function DocumentToKetoObject(doc: Document, renderFloat: bv64 -> string): (r: string)
    ensures r == "" <==> Taxpayer(doc).None?
    ensures Taxpayer(doc).Some? ==> r == TaxpayerKey(Taxpayer(doc).value) + ":" + YearText(doc, renderFloat)
  {
    match Taxpayer(doc)
    case None => ""
    case Some(t) => TaxpayerKey(t) + ":" + YearText(doc, renderFloat)
  }

  /** Two taxpayers share a key exactly when they agree up to case once
      spaces are written as hyphens; position by position, exactly when the
      characters are equal up to case or both are a space or a hyphen. */
  lemma KeyNormalises(a: string, b: string)
    ensures TaxpayerKey(a) == TaxpayerKey(b) <==> EqualFold(ReplaceChar(a, ' ', '-'), ReplaceChar(b, ' ', '-'))
    ensures TaxpayerKey(a) == TaxpayerKey(b)
        <==> |a| == |b| && forall i :: 0 <= i < |a| ==> (a[i] in " -" && b[i] in " -") || LowerChar(a[i]) == LowerChar(b[i])
  {
    var ka, kb := TaxpayerKey(a), TaxpayerKey(b);
    if |a| == |b| && forall i :: 0 <= i < |a| ==> (a[i] in " -" && b[i] in " -") || LowerChar(a[i]) == LowerChar(b[i]) {
      forall i | 0 <= i < |a| ensures ka[i] == kb[i] {
        if !(a[i] in " -" && b[i] in " -") {
          assert LowerChar(a[i]) == LowerChar(b[i]);
        }
      }
    }
  }

  lemma NoColonInDecimal(i: int)
    ensures ':' !in IntToDecimal(i)
  {
    var s := IntToDecimal(i);
    forall j | 0 <= j < |s|
      ensures s[j] != ':'
    {
      if i < 0 && j > 0 {
        assert s[j] == Digits(-i)[j - 1];
      }
    }
  }

  /** An object id splits back into its key and year when the taxpayer has no
      colon; the year of an integer-year document is recovered exactly. */
  lemma {:induction false} ObjectIdDecomposes(doc: Document, renderFloat: bv64 -> string)
    requires Taxpayer(doc).Some? && ':' !in Taxpayer(doc).value
    requires ':' !in YearText(doc, renderFloat)
    ensures var parts := Split(DocumentToKetoObject(doc, renderFloat), ':');
      parts == [TaxpayerKey(Taxpayer(doc).value), YearText(doc, renderFloat)]
  {
    var t := Taxpayer(doc).value;
    var key := TaxpayerKey(t);
    var year := YearText(doc, renderFloat);
    forall j | 0 <= j < |key|
      ensures key[j] != ':'
    {
      assert t[j] != ':';
    }
    assert DocumentToKetoObject(doc, renderFloat) == key + [':'] + year;
    SplitAtFirst(key, year, ':');
    SplitNoSeparator(year, ':');
  }

  /** For an integer year the object id carries the year recoverably. */
  lemma IntYearRecoverable(doc: Document, renderFloat: bv64 -> string)
    requires Taxpayer(doc).Some? && ':' !in Taxpayer(doc).value
    requires "year" in doc.metadata && doc.metadata["year"].MInt?
    ensures var parts := Split(DocumentToKetoObject(doc, renderFloat), ':');
      |parts| == 2 && ParseDecimal(parts[1]) == Some(doc.metadata["year"].i)
  {
    NoColonInDecimal(doc.metadata["year"].i);
    ObjectIdDecomposes(doc, renderFloat);
  }

  /** The relation tuple a check asks about. */
  datatype CheckRequest = CheckRequest(namespace: string, objectId: string, relation: string, subjectId: string)

  datatype ResponseBody = Unreadable | Unparsable | Decoded(allowed: bool)

  /** What the HTTP round trip can yield: the URL fails to parse, the request
      fails, or a response with a status and a body. */
  datatype CheckReply = InvalidUrl | TransportError | Reply(status: int, body: ResponseBody)

  /** The answer, with the request that was sent, if any. */
  datatype Decision = Decision(allowed: bool, request: Option<CheckRequest>)

  /** `CanAccessDocument`: no request at all for an unmappable document, and
      access only on a 200 whose body decodes to `allowed: true`. */
  function CanAccessDocument(username: string, doc: Document, renderFloat: bv64 -> string,
                             check: CheckRequest -> CheckReply): (d: Decision)
    ensures d.request.None? <==> Taxpayer(doc).None?
    ensures d.request.Some? ==>
      d.request.value == CheckRequest(Namespace, DocumentToKetoObject(doc, renderFloat), Relation, username)
    ensures d.allowed <==> d.request.Some? && check(d.request.value) == Reply(StatusOK, Decoded(true))
  {
    var objectId := DocumentToKetoObject(doc, renderFloat);
    if objectId == "" then Decision(false, None)
    else
      var request := CheckRequest(Namespace, objectId, Relation, username);
      match check(request)
      case InvalidUrl => Decision(false, Some(request))
      case TransportError => Decision(false, Some(request))
      case Reply(status, body) =>
        if status == StatusOK then
          match body
          case Unreadable => Decision(false, Some(request))
          case Unparsable => Decision(false, Some(request))
          case Decoded(allowed) => Decision(allowed, Some(request))
        else Decision(false, Some(request))
  }

  /** Fail closed: every failure of the round trip denies. */
  lemma FailsClosed(username: string, doc: Document, renderFloat: bv64 -> string, check: CheckRequest -> CheckReply)
    requires Taxpayer(doc).Some?
    requires var r := check(CheckRequest(Namespace, DocumentToKetoObject(doc, renderFloat), Relation, username));
      r.InvalidUrl? || r.TransportError? || (r.Reply? && (r.status != StatusOK || !r.body.Decoded?))
    ensures !CanAccessDocument(username, doc, renderFloat, check).allowed
  {
  }

  /** `FilterDocuments`: the documents Keto allows, in their original order. */
  method FilterDocuments(username: string, docs: seq<Document>, renderFloat: bv64 -> string,
                         check: CheckRequest -> CheckReply) returns (r: seq<Document>)
    ensures r == Filter(docs, d => CanAccessDocument(username, d, renderFloat, check).allowed)
    ensures forall d :: d in r <==> d in docs && CanAccessDocument(username, d, renderFloat, check).allowed
    ensures forall d :: d in r ==> Taxpayer(d).Some?
    ensures Subsequence(r, docs)
  {
    var p := d => CanAccessDocument(username, d, renderFloat, check).allowed;
    r := SelectInOrder(docs, p);
    forall d
      ensures d in r <==> d in docs && p(d)
    {
      FilterMembership(docs, p, d);
    }
    FilterIsSubsequence(docs, p);
  }
}
