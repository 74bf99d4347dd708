/** The in-process permission table (`PermissionService`,
    internal/permissions/service.go): each lower-cased user name maps to the
    taxpayers whose documents the user may read, `"*"` granting every
    document. */
module Permissions {
  import opened Wrappers
  import opened Seqs
  import opened Text
  import opened Models

  type Table = map<string, seq<string>>

  const Wildcard: string := "*"

  /** The loop over a user's permissions: the first wildcard, or the first
      permission naming the document's taxpayer up to case, grants access. */
  function GrantsAccess(perms: seq<string>, taxpayer: Option<string>): bool
    decreases |perms|
  {
    if |perms| == 0 then false
    else if perms[0] == Wildcard then true
    else if taxpayer.Some? && EqualFold(taxpayer.value, perms[0]) then true
    else GrantsAccess(perms[1..], taxpayer)
  }

  /** Some permission names the taxpayer, ignoring case. */
  predicate NamesTaxpayer(perms: seq<string>, taxpayer: string) {
    exists i :: 0 <= i < |perms| && EqualFold(taxpayer, perms[i])
  }

  /** The order of the permissions does not matter: access is granted exactly
      when the list holds the wildcard or names the taxpayer. */
  lemma {:induction false} GrantsAccessIff(perms: seq<string>, taxpayer: Option<string>)
    ensures GrantsAccess(perms, taxpayer)
        <==> Wildcard in perms || (taxpayer.Some? && NamesTaxpayer(perms, taxpayer.value))
    decreases |perms|
  {
    if |perms| > 0 {
      var tail := perms[1..];
      GrantsAccessIff(tail, taxpayer);
      assert perms == [perms[0]] + tail;
      if perms[0] != Wildcard && !(taxpayer.Some? && EqualFold(taxpayer.value, perms[0])) {
        if taxpayer.Some? && NamesTaxpayer(perms, taxpayer.value) {
          var i :| 0 <= i < |perms| && EqualFold(taxpayer.value, perms[i]);
          assert tail[i - 1] == perms[i];
        }
        if taxpayer.Some? && NamesTaxpayer(tail, taxpayer.value) {
          var i :| 0 <= i < |tail| && EqualFold(taxpayer.value, tail[i]);
          assert perms[i + 1] == tail[i];
        }
      } else if perms[0] != Wildcard {
        assert EqualFold(taxpayer.value, perms[0]);
      }
    }
  }

  /** `CanAccessDocument`: the user is looked up by lower-cased name; an
      unknown user is denied. */
  function CanAccessDocument(table: Table, username: string, doc: Document): (r: bool)
    ensures ToLower(username) !in table ==> !r
  {
    var key := ToLower(username);
    key in table && GrantsAccess(table[key], Taxpayer(doc))
  }

  /** The access rule in full: the user is known, and holds the wildcard or a
      permission equal to the document's string taxpayer up to case. */
  lemma AccessIff(table: Table, username: string, doc: Document)
    ensures CanAccessDocument(table, username, doc)
        <==> ToLower(username) in table
             && (Wildcard in table[ToLower(username)]
                 || (Taxpayer(doc).Some? && NamesTaxpayer(table[ToLower(username)], Taxpayer(doc).value)))
  {
    if ToLower(username) in table {
      GrantsAccessIff(table[ToLower(username)], Taxpayer(doc));
    }
  }

  /** The wildcard grants every document, whatever its metadata. */
  lemma WildcardGrantsAll(table: Table, username: string, doc: Document)
    requires ToLower(username) in table && Wildcard in table[ToLower(username)]
    ensures CanAccessDocument(table, username, doc)
  {
    AccessIff(table, username, doc);
  }

  /** Without the wildcard, a document lacking a string taxpayer is denied. */
  lemma NoTaxpayerDenied(table: Table, username: string, doc: Document)
    requires Taxpayer(doc).None?
    requires ToLower(username) in table ==> Wildcard !in table[ToLower(username)]
    ensures !CanAccessDocument(table, username, doc)
  {
    AccessIff(table, username, doc);
  }

  /** `FilterDocuments`: the accessible documents, in their original order. */
  method FilterDocuments(table: Table, username: string, docs: seq<Document>) returns (r: seq<Document>)
    ensures r == Filter(docs, d => CanAccessDocument(table, username, d))
    ensures forall d :: d in r <==> d in docs && CanAccessDocument(table, username, d)
    ensures Subsequence(r, docs)
  {
    r := SelectInOrder(docs, d => CanAccessDocument(table, username, d));
    forall d
      ensures d in r <==> d in docs && CanAccessDocument(table, username, d)
    {
      FilterMembership(docs, d => CanAccessDocument(table, username, d), d);
    }
    FilterIsSubsequence(docs, d => CanAccessDocument(table, username, d));
  }

  /** `GetUserPermissions`: the lower-cased user's list, or none. */
  function GetUserPermissions(table: Table, username: string): (r: seq<string>)
    ensures ToLower(username) in table ==> r == table[ToLower(username)]
    ensures ToLower(username) !in table ==> r == []
  {
    if ToLower(username) in table then table[ToLower(username)] else []
  }

  /** User names are matched up to case by both lookups. */
  lemma LookupIgnoresCase(table: Table, a: string, b: string, doc: Document)
    requires EqualFold(a, b)
    ensures CanAccessDocument(table, a, doc) == CanAccessDocument(table, b, doc)
    ensures GetUserPermissions(table, a) == GetUserPermissions(table, b)
  {
  }

  /** `AddUserPermission`: append the taxpayer to the lower-cased user's list,
      creating it when absent. */
  function AddUserPermission(table: Table, username: string, taxpayer: string): (r: Table)
    ensures r.Keys == table.Keys + {ToLower(username)}
    ensures forall k :: k in table && k != ToLower(username) ==> r[k] == table[k]
    ensures r[ToLower(username)] == GetUserPermissions(table, username) + [taxpayer]
  {
    var key := ToLower(username);
    var current := if key in table then table[key] else [];
    table[key := current + [taxpayer]]
  }

  /** After a grant the user's list ends with the new taxpayer, other users'
      lists are as before, and every document of that taxpayer (up to case)
      becomes readable. */
  lemma AddThenGet(table: Table, username: string, taxpayer: string, other: string, doc: Document)
    ensures var t := AddUserPermission(table, username, taxpayer);
      GetUserPermissions(t, username) == GetUserPermissions(table, username) + [taxpayer]
      && (ToLower(other) != ToLower(username) ==> GetUserPermissions(t, other) == GetUserPermissions(table, other))
    ensures Taxpayer(doc).Some? && EqualFold(Taxpayer(doc).value, taxpayer)
        ==> CanAccessDocument(AddUserPermission(table, username, taxpayer), username, doc)
  {
    var t := AddUserPermission(table, username, taxpayer);
    var perms := t[ToLower(username)];
    if Taxpayer(doc).Some? && EqualFold(Taxpayer(doc).value, taxpayer) {
      assert perms[|perms| - 1] == taxpayer;
      assert NamesTaxpayer(perms, Taxpayer(doc).value);
      AccessIff(t, username, doc);
    }
  }

  /** Granting never revokes: whatever was readable stays readable, for every
      user. */
  lemma AddIsMonotone(table: Table, username: string, taxpayer: string, other: string, doc: Document)
    requires CanAccessDocument(table, other, doc)
    ensures CanAccessDocument(AddUserPermission(table, username, taxpayer), other, doc)
  {
    var t := AddUserPermission(table, username, taxpayer);
    var key := ToLower(other);
    AccessIff(table, other, doc);
    AccessIff(t, other, doc);
    if key == ToLower(username) {
      var before := table[key];
      assert t[key] == before + [taxpayer];
      if Wildcard in before {
        assert Wildcard in t[key];
      } else {
        var i :| 0 <= i < |before| && EqualFold(Taxpayer(doc).value, before[i]);
        assert t[key][i] == before[i];
      }
    }
  }
}
