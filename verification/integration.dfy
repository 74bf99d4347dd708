/** How the parts meet in the deployed server (main.go wires the SQLite store
    to the Keto client, and internal/api/server.go filters listings and
    searches through `CanAccessDocument`). The SQLite store keeps only id,
    title and content, so every document it hands back has empty metadata;
    these lemmas follow that through the permission checks. */
module Integration {
  import opened Wrappers
  import opened Seqs
  import opened Models
  import AdaptiveSearch
  import SqliteStore
  import Keto
  import Permissions
  import Text

  /** A document as the SQLite store returns it: no metadata. */
  predicate Bare(d: Document) {
    d.metadata == map[]
  }

  /** Every document the SQLite listing or KNN query rebuilds is bare. */
  lemma ListedIsBare(id: Uuid, row: SqliteStore.Row)
    ensures Bare(SqliteStore.Listed(id, row))
    ensures Taxpayer(SqliteStore.Listed(id, row)).None?
  {
  }

  /** The Keto client denies a bare document for every user, without asking
      Keto. */
  lemma KetoDeniesBare(username: string, d: Document, renderFloat: bv64 -> string,
                       check: Keto.CheckRequest -> Keto.CheckReply)
    requires Bare(d)
    ensures Keto.CanAccessDocument(username, d, renderFloat, check) == Keto.Decision(false, None)
  {
  }

  /** The in-process table lets a bare document through only for holders of
      the wildcard. */
  lemma TableAdmitsBareOnlyByWildcard(table: Permissions.Table, username: string, d: Document)
    requires Bare(d)
    ensures Permissions.CanAccessDocument(table, username, d)
        <==> Text.ToLower(username) in table && Permissions.Wildcard in table[Text.ToLower(username)]
  {
    Permissions.AccessIff(table, username, d);
  }

  /** A selection from a sequence none of whose elements pass is empty. */
  lemma FilterNonePass<T>(s: seq<T>, p: T -> bool)
    requires forall i :: 0 <= i < |s| ==> !p(s[i])
    ensures Filter(s, p) == []
  {
    if Filter(s, p) != [] {
      FilterMembership(s, p, Filter(s, p)[0]);
    }
  }

  /** The filter the server builds from the Keto client. */
  function KetoFilter(username: string, renderFloat: bv64 -> string,
                      check: Keto.CheckRequest -> Keto.CheckReply): Document -> bool
  {
    d => Keto.CanAccessDocument(username, d, renderFloat, check).allowed
  }

  /** With the SQLite store and the Keto client together, a search that
      succeeds finds nothing, whatever the KNN query answers and whatever
      Keto would say: the candidates carry no taxpayer, so none passes. A
      failed KNN query still fails the search. */
  lemma KetoSearchOverSqliteFindsNothing(knn: int -> Result<seq<Document>, string>, topK: int, username: string,
                                         renderFloat: bv64 -> string, check: Keto.CheckRequest -> Keto.CheckReply)
    requires forall k :: knn(k).Ok? ==> forall i :: 0 <= i < |knn(k).value| ==> Bare(knn(k).value[i])
    ensures var t := AdaptiveSearch.SearchSimilarWithFilter(knn, topK, KetoFilter(username, renderFloat, check));
      && (t.outcome.Ok? ==> t.outcome.value == [])
      && (t.outcome.Err? ==> knn(t.requests[|t.requests| - 1]).Err?)
  {
    var p := KetoFilter(username, renderFloat, check);
    var t := AdaptiveSearch.SearchSimilarWithFilter(knn, topK, p);
    var last := knn(t.requests[|t.requests| - 1]);
    if last.Ok? {
      FilterNonePass(last.value, p);
    }
  }

  /** With an ideal KNN over bare documents, that search always succeeds,
      with no documents. */
  lemma {:induction false} KetoSearchOverSqliteIsEmpty(knn: int -> Result<seq<Document>, string>, ranked: seq<Document>,
                                                       topK: int, username: string, renderFloat: bv64 -> string,
                                                       check: Keto.CheckRequest -> Keto.CheckReply)
    requires AdaptiveSearch.RankedKnn(knn, ranked)
    requires forall i :: 0 <= i < |ranked| ==> Bare(ranked[i])
    ensures AdaptiveSearch.SearchSimilarWithFilter(knn, topK, KetoFilter(username, renderFloat, check)).outcome == Ok([])
  {
    var p := KetoFilter(username, renderFloat, check);
    FilterNonePass(ranked, p);
    AdaptiveSearch.SearchSimilarWithFilterRanked(knn, ranked, topK, p);
  }

  /** The same composition lists nothing: the filtered listing of any SQLite
      store under the Keto client is empty. */
  method KetoListingOverSqlite(st: SqliteStore.Store, username: string, renderFloat: bv64 -> string,
                               check: Keto.CheckRequest -> Keto.CheckReply, queryFails: bool)
    returns (docs: seq<Document>)
    ensures docs == []
  {
    docs := SqliteStore.GetFilteredDocuments(st, Some(KetoFilter(username, renderFloat, check)), queryFails);
    if docs != [] {
      ListedIsBare(docs[0].id, st.documents[docs[0].id]);
    }
  }
}
