/** The target OpenLDAP directory as the sync script reaches it through
    LdapCon and python-ldap: entries keyed by DN, each a map from attribute
    name to its list of values, read by subtree searches and changed by
    modify and add requests that the server may refuse. */
module Directory {
  import opened Wrappers

  type DN = string
  type Attr = string
  type Attrs = map<Attr, seq<string>>

  /** One item of a search result: python-ldap's (dn, attrs) pair. */
  type Entry = (DN, Attrs)

  /** e[a][0] in Python; None where that raises KeyError or IndexError. */
  function First(e: Attrs, a: Attr): (r: Option<string>)
    ensures r.None? <==> a !in e || e[a] == []
    ensures r.Some? ==> r.value in e[a]
  {
    if a in e && |e[a]| > 0 then Some(e[a][0]) else None
  }

  /** Writing attribute b: reading b back gives the first value written,
      and reading any other attribute gives what it gave before. */
  lemma FirstAfterWrite(e: Attrs, a: Attr, b: Attr, vs: seq<string>)
    ensures a == b ==> First(e[b := vs], a) == (if |vs| > 0 then Some(vs[0]) else None)
    ensures a != b ==> First(e[b := vs], a) == First(e, a)
  {
  }

  /** a and b agree on every attribute outside keep: the same attributes,
      with the same values. */
  ghost predicate SameOutside(a: Attrs, b: Attrs, keep: set<Attr>) {
    forall k :: k !in keep ==> (k in a <==> k in b) && (k in a ==> a[k] == b[k])
  }

  /** Giving a and b the same value at k leaves them differing at most
      in keep without k. */
  lemma SameOutsideUpdate(a: Attrs, b: Attrs, keep: set<Attr>, k: Attr, v: seq<string>)
    requires SameOutside(a, b, keep)
    ensures SameOutside(a[k := v], b[k := v], keep - {k})
  {
  }

  /** Writing a key inside keep does not widen the difference. */
  lemma SameOutsideWrite(a: Attrs, b: Attrs, keep: set<Attr>, k: Attr, v: seq<string>)
    requires SameOutside(a, b, keep) && k in keep
    ensures SameOutside(a, b[k := v], keep)
  {
  }

  lemma SameOutsideTrans(a: Attrs, b: Attrs, c: Attrs, keep: set<Attr>)
    requires SameOutside(a, b, keep) && SameOutside(b, c, keep)
    ensures SameOutside(a, c, keep)
  {
  }

  lemma SameOutsideNothing(a: Attrs, b: Attrs)
    requires SameOutside(a, b, {})
    ensures a == b
  {
    assert forall k :: k in a <==> k in b;
  }

  /** The part of the RFC 4515 search filter language the model needs. */
  datatype Filter =
    | Present(attr: Attr)                  // (attr=*)
    | Equality(attr: Attr, value: string)  // (attr=value)
    | And(parts: seq<Filter>)              // (&(...)(...))
    | Or(parts: seq<Filter>)               // (|(...)(...))
    | Not(part: Filter)                    // (!(...))

  predicate Matches(f: Filter, e: Attrs)
    decreases f
  {
    match f
    case Present(a) => a in e && |e[a]| > 0
    case Equality(a, v) => a in e && v in e[a]
    case And(ps) => forall i :: 0 <= i < |ps| ==> Matches(ps[i], e)
    case Or(ps) => exists i :: 0 <= i < |ps| && Matches(ps[i], e)
    case Not(g) => !Matches(g, e)
  }

  /** dn is base or lies below it: the reach of a SCOPE_SUBTREE search. */
  predicate InSubtree(dn: DN, base: DN) {
    dn == base || (|dn| > |base| && dn[|dn| - |base| - 1..] == "," + base)
  }

  /** The entry at dn is one a subtree search from base with filter f finds. */
  predicate Selected(entries: map<DN, Attrs>, dn: DN, base: DN, f: Filter) {
    dn in entries && InSubtree(dn, base) && Matches(f, entries[dn])
  }

  /** r is a possible answer of search_s(base, SCOPE_SUBTREE, f) over
      entries: each selected entry exactly once, with all its attributes,
      in an order the server chooses. */
  ghost predicate IsSearchResult(r: seq<Entry>, entries: map<DN, Attrs>, base: DN, f: Filter) {
    && (forall i :: 0 <= i < |r| ==> Selected(entries, r[i].0, base, f) && r[i].1 == entries[r[i].0])
    && (forall i, j :: 0 <= i < j < |r| ==> r[i].0 != r[j].0)
    && (forall dn :: Selected(entries, dn, base, f) ==> exists i :: 0 <= i < |r| && r[i].0 == dn)
  }

  /** An answer is empty exactly when nothing is selected. */
  lemma EmptySearchResult(r: seq<Entry>, entries: map<DN, Attrs>, base: DN, f: Filter)
    requires IsSearchResult(r, entries, base, f)
    ensures |r| == 0 <==> forall dn :: !Selected(entries, dn, base, f)
  {
    if |r| > 0 {
      assert Selected(entries, r[0].0, base, f);
    }
  }

  /** Halfway through answering a search: found holds distinct selected
      entries, and every selected entry is either found or still pending. */
  ghost predicate SearchProgress(entries: map<DN, Attrs>, base: DN, f: Filter, pending: set<DN>, found: seq<Entry>) {
    && (forall dn :: dn in pending ==> Selected(entries, dn, base, f))
    && (forall i :: 0 <= i < |found| ==>
          Selected(entries, found[i].0, base, f) && found[i].1 == entries[found[i].0] && found[i].0 !in pending)
    && (forall i, j :: 0 <= i < j < |found| ==> found[i].0 != found[j].0)
    && (forall dn :: Selected(entries, dn, base, f) ==> dn in pending || exists i :: 0 <= i < |found| && found[i].0 == dn)
  }

  /** Moving one pending entry to the answer keeps the search on track. */
  lemma SearchStep(entries: map<DN, Attrs>, base: DN, f: Filter, pending: set<DN>, found: seq<Entry>, dn: DN)
    requires SearchProgress(entries, base, f, pending, found) && dn in pending
    ensures SearchProgress(entries, base, f, pending - {dn}, found + [(dn, entries[dn])])
  {
    var found' := found + [(dn, entries[dn])];
    assert forall i :: 0 <= i < |found| ==> found'[i] == found[i];
    assert found'[|found|].0 == dn;
  }

  class TargetDirectory {
    var entries: map<DN, Attrs>

    constructor (initial: map<DN, Attrs>)
      ensures entries == initial
    {
      entries := initial;
    }

    /** LdapCon(server_l).search(base, f): None (the script's False) when no
        connection could be made; otherwise the selected entries, in an
        order of the server's choosing. */
    method Search(base: DN, f: Filter) returns (r: Option<seq<Entry>>)
      ensures r.Some? ==> IsSearchResult(r.value, entries, base, f)
    {
      var connected: bool :| true;
      if !connected {
        return None;
      }
      var pending := set dn | dn in entries && InSubtree(dn, base) && Matches(f, entries[dn]);
      var found: seq<Entry> := [];
      while pending != {}
        invariant SearchProgress(entries, base, f, pending, found)
        decreases pending
      {
        var dn :| dn in pending;
        SearchStep(entries, base, f, pending, found, dn);
        found := found + [(dn, entries[dn])];
        pending := pending - {dn};
      }
      return Some(found);
    }

    /** LdapCon(...).modify(dn, modlist) with the modlist python-ldap derives
        from old and new values: each attribute named in changes gets the
        new values, the others stay. The server refuses a DN it does not
        hold, and may refuse for reasons of its own (no connection, access,
        schema); a refused request changes nothing. */
    method Modify(dn: DN, changes: Attrs) returns (ok: bool)
      modifies this
      ensures ok ==> dn in old(entries) && entries == old(entries)[dn := old(entries)[dn] + changes]
      ensures !ok ==> entries == old(entries)
    {
      var accepted: bool :| true;
      ok := accepted && dn in entries;
      if ok {
        entries := entries[dn := entries[dn] + changes];
      }
    }

    /** LdapCon(...).add(dn, addModlist(attrs)): a new entry with exactly
        attrs. The server refuses a DN it already holds, and may refuse for
        reasons of its own; a refused request changes nothing. */
    method Add(dn: DN, attrs: Attrs) returns (ok: bool)
      modifies this
      ensures ok ==> dn !in old(entries) && entries == old(entries)[dn := attrs]
      ensures !ok ==> entries == old(entries)
    {
      var accepted: bool :| true;
      ok := accepted && dn !in entries;
      if ok {
        entries := entries[dn := attrs];
      }
    }
  }
}
