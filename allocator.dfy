/** getlastuid: the uidNumber allocator. It reads every posixAccount's
    uidNumber under one base DN, compares them as integers and hands back
    the largest; the sync pass gives a new account that number plus one. */
module Allocator {
  import opened Wrappers
  import opened PyText
  import opened Directory

  /** The search base getlastuid uses when called without arguments, as the
      sync pass calls it. */
  const UidBase: DN := "dc=domain,dc=loc"

  /** (&(objectClass=posixAccount)(uidNumber=*)), getlastuid's default filter. */
  const UidFilter: Filter := And([Equality("objectClass", "posixAccount"), Present("uidNumber")])

  /** What getlastuid gives back: False, an integer, or an exception. */
  datatype LastUid = NoUid | Uid(n: int) | UidCrash

  /** int(attrs['uidNumber'][0]); None where Python raises. */
  function UidNumberOf(e: Attrs): Option<int> {
    match First(e, "uidNumber")
    case None => None
    case Some(t) => ParseInt(t)
  }

  /** The uidNumber the create path writes, [str(uidn + 1)], reads back as
      that number, whatever the entry held before. */
  lemma UidNumberReadsBack(e: Attrs, n: int)
    ensures UidNumberOf(e["uidNumber" := [IntToString(n)]]) == Some(n)
  {
    ParseIntToString(n);
  }

  /** The pure part of getlastuid on a non-empty result:
      sorted([int(x[1]['uidNumber'][0]) for x in found])[-1], the numeric
      maximum. UidCrash when some uidNumber is missing or is not a number. */
  function LastOf(found: seq<Entry>): (r: LastUid)
    ensures r == NoUid <==> |found| == 0
    ensures r == UidCrash <==> exists i :: 0 <= i < |found| && UidNumberOf(found[i].1).None?
    ensures r.Uid? ==> exists i :: 0 <= i < |found| && UidNumberOf(found[i].1) == Some(r.n)
    ensures r.Uid? ==> forall i :: 0 <= i < |found| ==>
      UidNumberOf(found[i].1).Some? && UidNumberOf(found[i].1).value <= r.n
    decreases |found|
  {
    if |found| == 0 then NoUid
    else
      match (LastOf(found[..|found| - 1]), UidNumberOf(found[|found| - 1].1))
      case (UidCrash, _) => UidCrash
      case (_, None) => UidCrash
      case (NoUid, Some(m)) => Uid(m)
      case (Uid(k), Some(m)) => Uid(if k < m then m else k)
  }

  /** n is the largest uidNumber among the entries getlastuid scans, and
      every one of them has a numeric uidNumber. */
  ghost predicate IsLastUid(entries: map<DN, Attrs>, n: int) {
    && (forall dn :: Selected(entries, dn, UidBase, UidFilter) ==>
          UidNumberOf(entries[dn]).Some? && UidNumberOf(entries[dn]).value <= n)
    && (exists dn :: Selected(entries, dn, UidBase, UidFilter) && UidNumberOf(entries[dn]) == Some(n))
  }

  /** getlastuid() against the target directory. NoUid stands for the False
      it returns when the search yields nothing (no connection, or no
      matching entry). */
  method GetLastUid(dir: TargetDirectory) returns (r: LastUid)
    ensures r.Uid? ==> IsLastUid(dir.entries, r.n)
    ensures r == UidCrash ==>
      exists dn :: Selected(dir.entries, dn, UidBase, UidFilter) && UidNumberOf(dir.entries[dn]).None?
    ensures (forall dn :: !Selected(dir.entries, dn, UidBase, UidFilter)) ==> r == NoUid
  {
    var found := dir.Search(UidBase, UidFilter);
    if found.None? || |found.value| == 0 {
      return NoUid;
    }
    EmptySearchResult(found.value, dir.entries, UidBase, UidFilter);
    r := LastOf(found.value);
    if r.Uid? {
      var i :| 0 <= i < |found.value| && UidNumberOf(found.value[i].1) == Some(r.n);
      assert Selected(dir.entries, found.value[i].0, UidBase, UidFilter);
    } else if r == UidCrash {
      var i :| 0 <= i < |found.value| && UidNumberOf(found.value[i].1).None?;
      assert Selected(dir.entries, found.value[i].0, UidBase, UidFilter);
    }
  }

  /** The uidNumber the pass hands out, last + 1, is above every scanned
      uidNumber, so no scanned entry holds it. */
  lemma NextUidIsFree(entries: map<DN, Attrs>, n: int, dn: DN)
    requires IsLastUid(entries, n)
    requires Selected(entries, dn, UidBase, UidFilter)
    ensures UidNumberOf(entries[dn]).Some? && UidNumberOf(entries[dn]).value < n + 1
    ensures UidNumberOf(entries[dn]) != Some(n + 1)
  {
  }

  /** Once an account is added with uidNumber last + 1 where the scan sees
      it, the next scan answers last + 1: a later account gets a larger
      uidNumber. */
  lemma AddRaisesLastUid(entries: map<DN, Attrs>, n: int, dn: DN, attrs: Attrs)
    requires IsLastUid(entries, n)
    requires dn !in entries && UidNumberOf(attrs) == Some(n + 1)
    requires Selected(entries[dn := attrs], dn, UidBase, UidFilter)
    ensures IsLastUid(entries[dn := attrs], n + 1)
  {
    var after := entries[dn := attrs];
    forall d | Selected(after, d, UidBase, UidFilter)
      ensures UidNumberOf(after[d]).Some? && UidNumberOf(after[d]).value <= n + 1
    {
      if d != dn {
        assert Selected(entries, d, UidBase, UidFilter);
      }
    }
  }

  /** An account added where the scan does not see it leaves getlastuid's
      answer as it was, so the next account is handed the same uidNumber. */
  lemma AddOutsideScanKeepsLastUid(entries: map<DN, Attrs>, n: int, dn: DN, attrs: Attrs)
    requires IsLastUid(entries, n)
    requires dn !in entries && !Selected(entries[dn := attrs], dn, UidBase, UidFilter)
    ensures IsLastUid(entries[dn := attrs], n)
  {
    var after := entries[dn := attrs];
    var w :| Selected(entries, w, UidBase, UidFilter) && UidNumberOf(entries[w]) == Some(n);
    assert Selected(after, w, UidBase, UidFilter) && UidNumberOf(after[w]) == Some(n);
    forall d | Selected(after, d, UidBase, UidFilter)
      ensures UidNumberOf(after[d]).Some? && UidNumberOf(after[d]).value <= n
    {
      assert Selected(entries, d, UidBase, UidFilter);
    }
  }

  /** Among the scanned entries, no two numeric uidNumbers are equal. */
  ghost predicate UidsDistinct(entries: map<DN, Attrs>) {
    forall d1, d2 ::
      (Selected(entries, d1, UidBase, UidFilter) && Selected(entries, d2, UidBase, UidFilter) &&
       d1 != d2 && UidNumberOf(entries[d1]).Some?) ==>
      UidNumberOf(entries[d1]) != UidNumberOf(entries[d2])
  }

  /** Adding an entry with uidNumber last + 1 keeps the scanned uidNumbers
      distinct, whether or not the new entry falls under the scan. */
  lemma AddKeepsUidsDistinct(entries: map<DN, Attrs>, n: int, dn: DN, attrs: Attrs)
    requires UidsDistinct(entries) && IsLastUid(entries, n)
    requires dn !in entries && UidNumberOf(attrs) == Some(n + 1)
    ensures UidsDistinct(entries[dn := attrs])
  {
    var after := entries[dn := attrs];
    forall d1, d2 |
      Selected(after, d1, UidBase, UidFilter) && Selected(after, d2, UidBase, UidFilter) &&
      d1 != d2 && UidNumberOf(after[d1]).Some?
      ensures UidNumberOf(after[d1]) != UidNumberOf(after[d2])
    {
      if d1 != dn {
        assert Selected(entries, d1, UidBase, UidFilter);
      }
      if d2 != dn {
        assert Selected(entries, d2, UidBase, UidFilter);
      }
    }
  }

  /** The scan reads objectClass and uidNumber only: an entry that keeps
      those is scanned as before, with the same uidNumber. */
  lemma ScanReadsUidAttrs(e1: Attrs, e2: Attrs)
    requires "objectClass" in e1 <==> "objectClass" in e2
    requires "objectClass" in e1 ==> e1["objectClass"] == e2["objectClass"]
    requires "uidNumber" in e1 <==> "uidNumber" in e2
    requires "uidNumber" in e1 ==> e1["uidNumber"] == e2["uidNumber"]
    ensures Matches(UidFilter, e1) == Matches(UidFilter, e2)
    ensures UidNumberOf(e1) == UidNumberOf(e2)
  {
    assert Matches(UidFilter.parts[0], e1) == Matches(UidFilter.parts[0], e2);
    assert Matches(UidFilter.parts[1], e1) == Matches(UidFilter.parts[1], e2);
  }

  /** a and b look the same to the scan: the same entries are selected,
      with the same uidNumbers. */
  ghost predicate SameScan(a: map<DN, Attrs>, b: map<DN, Attrs>) {
    forall dn ::
      && (Selected(a, dn, UidBase, UidFilter) <==> Selected(b, dn, UidBase, UidFilter))
      && (Selected(a, dn, UidBase, UidFilter) ==> UidNumberOf(a[dn]) == UidNumberOf(b[dn]))
  }

  /** Rewriting an entry's attributes other than objectClass and uidNumber
      does not change what the scan sees. */
  lemma ScanAfterUpdate(entries: map<DN, Attrs>, dn: DN, attrs: Attrs)
    requires dn in entries
    requires "objectClass" in entries[dn] <==> "objectClass" in attrs
    requires "objectClass" in attrs ==> entries[dn]["objectClass"] == attrs["objectClass"]
    requires "uidNumber" in entries[dn] <==> "uidNumber" in attrs
    requires "uidNumber" in attrs ==> entries[dn]["uidNumber"] == attrs["uidNumber"]
    ensures SameScan(entries, entries[dn := attrs])
  {
    ScanReadsUidAttrs(entries[dn], attrs);
  }

  lemma SameScanKeepsDistinct(a: map<DN, Attrs>, b: map<DN, Attrs>)
    requires SameScan(a, b) && UidsDistinct(a)
    ensures UidsDistinct(b)
  {
  }

  /** getlastuid over uidNumbers 5, 9 and 3 answers 9, so the next account
      gets 10; the comparison is numeric, so "10" beats "9". */
  lemma LastOfExample()
    ensures LastOf([("a", map["uidNumber" := ["5"]]), ("b", map["uidNumber" := ["9"]]),
                    ("c", map["uidNumber" := ["3"]])]) == Uid(9)
    ensures LastOf([("a", map["uidNumber" := ["9"]]), ("b", map["uidNumber" := ["10"]])]) == Uid(10)
  {
    var s1: seq<Entry> := [("a", map["uidNumber" := ["5"]]), ("b", map["uidNumber" := ["9"]]),
                           ("c", map["uidNumber" := ["3"]])];
    assert s1[..2][..1] == [("a", map["uidNumber" := ["5"]])];
    assert ParseInt("5") == Some(5) && ParseInt("9") == Some(9) && ParseInt("3") == Some(3);
    var s2: seq<Entry> := [("a", map["uidNumber" := ["9"]]), ("b", map["uidNumber" := ["10"]])];
    assert s2[..1] == [("a", map["uidNumber" := ["9"]])];
    assert "10"[..1] == "1";
    assert ParseInt("10") == Some(10);
  }
}
