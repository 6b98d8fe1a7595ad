/** The reconciliation pass, the top level of AD-ldap_sync.py: it reads the
    Active Directory accounts and the OpenLDAP accounts once, indexes the
    latter by uid, and walks the former deciding per account to skip it,
    to refresh its password, or to create it with a fresh uidNumber. */
module Sync {
  import opened Wrappers
  import opened PyText
  import opened Codec
  import opened Directory
  import opened Allocator

  // ---------------------------------------------------------------------
  // Configuration
  // ---------------------------------------------------------------------

  /** dn_prod: a DN pattern with one %s, kept as the text around it. */
  datatype DnPattern = DnPattern(prefix: string, suffix: string)

  /** dn_prod % uid: the uid can be read back from between the two
      halves of the pattern. */
  function DnFor(p: DnPattern, uid: string): (dn: DN)
    ensures |dn| == |p.prefix| + |uid| + |p.suffix|
    ensures dn[|p.prefix|..|p.prefix| + |uid|] == uid
  {
    p.prefix + uid + p.suffix
  }

  /** Different uids give different DNs, so two created accounts never
      compete for one entry. */
  lemma DnForInjective(p: DnPattern, u1: string, u2: string)
    requires DnFor(p, u1) == DnFor(p, u2)
    ensures u1 == u2
  {
    var d := DnFor(p, u1);
    assert |u1| == |u2|;
    assert u1 == d[|p.prefix|..|p.prefix| + |u1|];
    assert u2 == DnFor(p, u2)[|p.prefix|..|p.prefix| + |u2|];
  }

  /** The settings the script imports from its config module. */
  datatype Config = Config(
    excludeDn: seq<string>,  // exclude_dn: sAMAccountNames that are never synced
    dnProd: DnPattern,       // dn_prod: where an account with a given uid lives
    userTpl: Attrs,          // user_tpl: the attributes every new account starts from
    baseDnL: DN,             // base_dn_l: base of the initial target search
    userFltrL: Filter)       // user_fltr_l: filter of the initial target search

  /** An update needs the converted pwdLastSet to exceed the stored
      sambaPwdLastSet by more than this many seconds. */
  const SkewTolerance: int := 1

  /** The profile attributes a new account copies from AD, in the order
      the script copies them. */
  const ProfileAttrs: seq<Attr> := ["cn", "givenName", "sn", "telephoneNumber", "mail"]

  /** The two attributes a password refresh replaces. */
  const PasswordAttrs: set<Attr> := {"userPassword", "sambaPwdLastSet"}

  /** Every attribute the create path writes into the template. */
  const CreateAttrs: set<Attr> := {
    "cn", "givenName", "sn", "telephoneNumber", "mail", "homeDirectory", "homePhone",
    "sambaPwdLastSet", "uid", "userPassword", "uidNumber"}

  predicate HasProfile(au: Attrs) {
    "cn" in au && "givenName" in au && "sn" in au && "telephoneNumber" in au && "mail" in au
  }

  // ---------------------------------------------------------------------
  // Reading attributes the way the script does
  // ---------------------------------------------------------------------

  /** int(e[a][0]) or long(e[a][0]); None where Python raises. */
  function IntAttr(e: Attrs, a: Attr): Option<int> {
    match First(e, a)
    case None => None
    case Some(t) => ParseInt(t)
  }

  /** sha1hex2ldap(au['division'][0]); None where Python raises. */
  function LdapHashOf(au: Attrs): Option<string> {
    match First(au, "division")
    case None => None
    case Some(h) => Sha1Hex2Ldap(h)
  }

  /** An entry the ldap_accs comprehension can read: it has a uid and a
      sambaPwdLastSet. */
  predicate Indexable(e: Attrs) {
    First(e, "uid").Some? && First(e, "sambaPwdLastSet").Some?
  }

  /** ldap_accs, built from the target accounts: each uid with its
      sambaPwdLastSet, a later pair replacing an earlier one. None where
      an entry lacks either attribute and the comprehension raises. */
  function UidIndex(users: seq<Entry>): (r: Option<map<string, string>>)
    ensures r.Some? <==> forall i :: 0 <= i < |users| ==> Indexable(users[i].1)
    decreases |users|
  {
    if |users| == 0 then Some(map[])
    else
      var n := |users| - 1;
      var rest, e := UidIndex(users[..n]), users[n].1;
      assert forall i :: 0 <= i < n ==> users[..n][i] == users[i];
      if rest.Some? && Indexable(e) then
        Some(rest.value[First(e, "uid").value := First(e, "sambaPwdLastSet").value])
      else None
  }

  /** The uids ldap_accs holds are exactly those of the target accounts. */
  lemma {:induction false} UidIndexKeys(users: seq<Entry>, u: string)
    requires UidIndex(users).Some?
    ensures u in UidIndex(users).value <==> exists i :: 0 <= i < |users| && First(users[i].1, "uid") == Some(u)
    decreases |users|
  {
    if |users| > 0 {
      var n := |users| - 1;
      UidIndexKeys(users[..n], u);
      assert forall i :: 0 <= i < n ==> users[..n][i] == users[i];
    }
  }

  /** dict(LDAPusers): each DN of the result with its attributes. */
  function DnIndex(users: seq<Entry>): (r: map<DN, Attrs>)
    ensures forall dn :: dn in r <==> exists i :: 0 <= i < |users| && users[i].0 == dn
    decreases |users|
  {
    if |users| == 0 then map[]
    else DnIndex(users[..|users| - 1])[users[|users| - 1].0 := users[|users| - 1].1]
  }

  /** Over a search result, dict(LDAPusers) holds the directory's own
      entries. */
  lemma {:induction false} DnIndexOfSearch(users: seq<Entry>, entries: map<DN, Attrs>)
    requires forall i :: 0 <= i < |users| ==> users[i].0 in entries && users[i].1 == entries[users[i].0]
    ensures forall dn :: dn in DnIndex(users) ==> dn in entries && DnIndex(users)[dn] == entries[dn]
    decreases |users|
  {
    if |users| > 0 {
      DnIndexOfSearch(users[..|users| - 1], entries);
    }
  }

  // ---------------------------------------------------------------------
  // The decision for one AD account
  // ---------------------------------------------------------------------

  datatype Decision =
    | Crash                                         // the script raises; the pass ends
    | Skip                                          // excluded, or no division attribute
    | UpToDate                                      // known uid, password not newer
    | Refresh(dn: DN, hash: string, stamp: int)     // modify userPassword and sambaPwdLastSet
    | Incomplete                                    // new uid, a profile attribute missing
    | Create(uid: string, stamp: int, hash: string) // new uid, ready to be added

  /** The decision the loop body takes for the AD account au, given the
      uid index and dict(LDAPusers) built before the loop. An account
      without sAMAccountName raises; an account that is neither skipped
      nor crashing takes the update path exactly when its uid is in
      ldap_accs. */
  function Decide(cfg: Config, index: map<string, string>, byDn: map<DN, Attrs>, au: Attrs): (d: Decision)
    ensures First(au, "sAMAccountName").None? ==> d == Crash
    ensures d != Crash && d != Skip ==>
      && First(au, "sAMAccountName").Some? && First(au, "sAMAccountName").value !in cfg.excludeDn
      && "division" in au
      && (First(au, "sAMAccountName").value in index <==> d == UpToDate || d.Refresh?)
  {
    match First(au, "sAMAccountName")
    case None => Crash
    case Some(uid) =>
      if uid in cfg.excludeDn || "division" !in au then Skip
      else if uid in index then DecideKnown(cfg, byDn, au, uid)
      else DecideNew(au, uid)
  }

  /** The update path (lines 126-137): compare the converted pwdLastSet
      with the stored sambaPwdLastSet of the entry at dn_prod % uid. It
      raises exactly where those lines do: a missing or non-numeric
      pwdLastSet, no entry at dn_prod % uid in dict(LDAPusers), a missing
      or non-numeric stored sambaPwdLastSet, and, once an update is due, a
      stored entry without userPassword or a division that is not hex. */
  function DecideKnown(cfg: Config, byDn: map<DN, Attrs>, au: Attrs, uid: string): (d: Decision)
    ensures d == Crash || d == UpToDate || d.Refresh?
    ensures d == Crash <==>
      || IntAttr(au, "pwdLastSet").None?
      || DnFor(cfg.dnProd, uid) !in byDn
      || IntAttr(byDn[DnFor(cfg.dnProd, uid)], "sambaPwdLastSet").None?
      || (&& Ft2Ut(IntAttr(au, "pwdLastSet").value) > IntAttr(byDn[DnFor(cfg.dnProd, uid)], "sambaPwdLastSet").value + SkewTolerance
          && ("userPassword" !in byDn[DnFor(cfg.dnProd, uid)] || LdapHashOf(au).None?))
    ensures d.Refresh? ==>
      && d.dn == DnFor(cfg.dnProd, uid) && LdapHashOf(au) == Some(d.hash)
      && IntAttr(au, "pwdLastSet").Some? && d.stamp == Ft2Ut(IntAttr(au, "pwdLastSet").value)
  {
    match IntAttr(au, "pwdLastSet")
    case None => Crash
    case Some(ft) =>
      var dn := DnFor(cfg.dnProd, uid);
      if dn !in byDn then Crash
      else
        match IntAttr(byDn[dn], "sambaPwdLastSet")
        case None => Crash
        case Some(stored) =>
          if Ft2Ut(ft) <= stored + SkewTolerance then UpToDate
          else if "userPassword" !in byDn[dn] then Crash
          else (
            match LdapHashOf(au)
            case None => Crash
            case Some(h) => Refresh(dn, h, Ft2Ut(ft)))
  }

  /** The create path up to the uidNumber (lines 142-153): a missing
      profile attribute ends the iteration without an add; with the profile
      complete, a missing or non-numeric pwdLastSet or a division that is
      not hex raises. */
  function DecideNew(au: Attrs, uid: string): (d: Decision)
    ensures d == Crash || d == Incomplete || d.Create?
    ensures d == Incomplete <==> !HasProfile(au)
    ensures d == Crash <==> HasProfile(au) && (IntAttr(au, "pwdLastSet").None? || LdapHashOf(au).None?)
    ensures d.Create? ==> d.uid == uid && LdapHashOf(au) == Some(d.hash)
  {
    if !HasProfile(au) then Incomplete
    else
      match (IntAttr(au, "pwdLastSet"), LdapHashOf(au))
      case (Some(ft), Some(h)) => Create(uid, Ft2Ut(ft), h)
      case _ => Crash
  }

  /** The changes a refresh sends: the two password attributes and no
      other, the hash as the only userPassword, and a sambaPwdLastSet that
      reads back as stamp. */
  function PasswordChanges(hash: string, stamp: int): (m: Attrs)
    ensures m.Keys == PasswordAttrs
    ensures m["userPassword"] == [hash]
    ensures |m["sambaPwdLastSet"]| == 1 && ParseInt(m["sambaPwdLastSet"][0]) == Some(stamp)
  {
    ParseIntToString(stamp);
    map["userPassword" := [hash], "sambaPwdLastSet" := [IntToString(stamp)]]
  }

  /** An excluded account, or one without division, is skipped, and only
      those are. */
  lemma SkipIff(cfg: Config, index: map<string, string>, byDn: map<DN, Attrs>, au: Attrs)
    ensures Decide(cfg, index, byDn, au) == Skip <==>
      First(au, "sAMAccountName").Some? &&
      (First(au, "sAMAccountName").value in cfg.excludeDn || "division" !in au)
  {
  }

  /** For a known, well-formed account the password is refreshed exactly
      when the converted pwdLastSet exceeds the stored value by more than
      the tolerance; otherwise nothing is sent. */
  lemma RefreshIff(cfg: Config, index: map<string, string>, byDn: map<DN, Attrs>, au: Attrs,
                   uid: string, ft: int, stored: int)
    requires First(au, "sAMAccountName") == Some(uid) && uid !in cfg.excludeDn && uid in index
    requires LdapHashOf(au).Some? && IntAttr(au, "pwdLastSet") == Some(ft)
    requires DnFor(cfg.dnProd, uid) in byDn && "userPassword" in byDn[DnFor(cfg.dnProd, uid)]
    requires IntAttr(byDn[DnFor(cfg.dnProd, uid)], "sambaPwdLastSet") == Some(stored)
    ensures Decide(cfg, index, byDn, au).Refresh? <==> Ft2Ut(ft) > stored + SkewTolerance
    ensures !Decide(cfg, index, byDn, au).Refresh? ==> Decide(cfg, index, byDn, au) == UpToDate
  {
  }

  /** A converted 1001 against a stored 1000 sends nothing; 1002 sends the
      refresh, since the comparison is strict. */
  lemma ToleranceExample(cfg: Config, index: map<string, string>, byDn: map<DN, Attrs>, au: Attrs, uid: string)
    requires First(au, "sAMAccountName") == Some(uid) && uid !in cfg.excludeDn && uid in index
    requires LdapHashOf(au).Some?
    requires DnFor(cfg.dnProd, uid) in byDn && "userPassword" in byDn[DnFor(cfg.dnProd, uid)]
    requires IntAttr(byDn[DnFor(cfg.dnProd, uid)], "sambaPwdLastSet") == Some(1000)
    ensures IntAttr(au, "pwdLastSet") == Some(Ut2Ft(1001)) ==> Decide(cfg, index, byDn, au) == UpToDate
    ensures IntAttr(au, "pwdLastSet") == Some(Ut2Ft(1002)) ==> Decide(cfg, index, byDn, au).Refresh?
  {
    Ft2UtOfUt2Ft(1001);
    Ft2UtOfUt2Ft(1002);
  }

  /** What a refresh writes: the entry at dn_prod % uid gets a {SHA} value
      that decodes to the digest in division, and a sambaPwdLastSet that
      reads back as the converted pwdLastSet, which is past the stored one
      by more than the tolerance. */
  lemma RefreshFacts(cfg: Config, index: map<string, string>, byDn: map<DN, Attrs>, au: Attrs)
    requires Decide(cfg, index, byDn, au).Refresh?
    ensures var d := Decide(cfg, index, byDn, au);
      && First(au, "sAMAccountName").Some? && d.dn == DnFor(cfg.dnProd, First(au, "sAMAccountName").value)
      && d.dn in byDn && IntAttr(byDn[d.dn], "sambaPwdLastSet").Some?
      && d.stamp > IntAttr(byDn[d.dn], "sambaPwdLastSet").value + SkewTolerance
      && First(au, "division").Some? && HexDecode(First(au, "division").value).Some?
      && LdapShaDigest(d.hash) == HexDecode(First(au, "division").value)
  {
    Sha1Hex2LdapRoundTrip(First(au, "division").value);
  }

  /** What a create carries over from AD: the account's own name, which the
      index does not hold, its complete profile, and a {SHA} value that
      decodes to the digest in division. */
  lemma CreateFacts(cfg: Config, index: map<string, string>, byDn: map<DN, Attrs>, au: Attrs)
    requires Decide(cfg, index, byDn, au).Create?
    ensures var d := Decide(cfg, index, byDn, au);
      && First(au, "sAMAccountName") == Some(d.uid) && d.uid !in index && d.uid !in cfg.excludeDn
      && HasProfile(au)
      && First(au, "division").Some? && HexDecode(First(au, "division").value).Some?
      && LdapShaDigest(d.hash) == HexDecode(First(au, "division").value)
  {
    Sha1Hex2LdapRoundTrip(First(au, "division").value);
  }

  /** For a uid that is neither excluded nor known, with a division: a
      missing profile attribute means no add (lines 143-150), and the
      account is created exactly when the profile is complete and both
      pwdLastSet and division can be converted, with the converted values. */
  lemma CreateIff(cfg: Config, index: map<string, string>, byDn: map<DN, Attrs>, au: Attrs, uid: string)
    requires First(au, "sAMAccountName") == Some(uid) && uid !in cfg.excludeDn && "division" in au
    requires uid !in index
    ensures !HasProfile(au) ==> Decide(cfg, index, byDn, au) == Incomplete
    ensures Decide(cfg, index, byDn, au).Create? <==>
      HasProfile(au) && IntAttr(au, "pwdLastSet").Some? && LdapHashOf(au).Some?
    ensures Decide(cfg, index, byDn, au).Create? ==>
      Decide(cfg, index, byDn, au) == Create(uid, Ft2Ut(IntAttr(au, "pwdLastSet").value), LdapHashOf(au).value)
    ensures HasProfile(au) && !Decide(cfg, index, byDn, au).Create? ==> Decide(cfg, index, byDn, au) == Crash
  {
  }

  // ---------------------------------------------------------------------
  // The attributes of a new account
  // ---------------------------------------------------------------------

  /** HasProfile says that each name in ProfileAttrs is present; each of
      those names is one the create path writes. */
  lemma ProfilePresent(au: Attrs)
    ensures HasProfile(au) <==> forall j :: 0 <= j < |ProfileAttrs| ==> ProfileAttrs[j] in au
    ensures forall j :: 0 <= j < |ProfileAttrs| ==> ProfileAttrs[j] in CreateAttrs
  {
    assert ProfileAttrs[0] == "cn" && ProfileAttrs[1] == "givenName" && ProfileAttrs[2] == "sn";
    assert ProfileAttrs[3] == "telephoneNumber" && ProfileAttrs[4] == "mail";
  }

  /** attrs after the first k profile attributes have been copied from au. */
  function CopyProfile(attrs: Attrs, au: Attrs, k: nat): Attrs
    requires k <= |ProfileAttrs|
    requires forall j :: 0 <= j < k ==> ProfileAttrs[j] in au
  {
    if k == 0 then attrs else CopyProfile(attrs, au, k - 1)[ProfileAttrs[k - 1] := au[ProfileAttrs[k - 1]]]
  }

  /** attrs once the try block of the create path has run through: the
      profile attributes copied, then homeDirectory and homePhone set. */
  function ProfileFilled(attrs: Attrs, au: Attrs, uid: string): Attrs
    requires HasProfile(au)
  {
    ProfilePresent(au);
    CopyProfile(attrs, au, |ProfileAttrs|)["homeDirectory" := ["/home/" + uid]]["homePhone" := au["telephoneNumber"]]
  }

  /** The entry the create path adds: tpl filled from the profile, then the
      converted timestamp, the uid, the encoded password and the allocated
      uidNumber. */
  function NewAccount(tpl: Attrs, au: Attrs, uid: string, stamp: int, hash: string, uidNumber: int): Attrs
    requires HasProfile(au)
  {
    ProfileFilled(tpl, au, uid)["sambaPwdLastSet" := [IntToString(stamp)]]["uid" := [uid]]
      ["userPassword" := [hash]]["uidNumber" := [IntToString(uidNumber)]]
  }

  lemma ProfileFilledUnfold(attrs: Attrs, au: Attrs, uid: string)
    requires HasProfile(au)
    ensures ProfileFilled(attrs, au, uid) ==
      attrs["cn" := au["cn"]]["givenName" := au["givenName"]]["sn" := au["sn"]]
           ["telephoneNumber" := au["telephoneNumber"]]["mail" := au["mail"]]
           ["homeDirectory" := ["/home/" + uid]]["homePhone" := au["telephoneNumber"]]
  {
    ProfilePresent(au);
    assert CopyProfile(attrs, au, 1) == attrs["cn" := au["cn"]];
    assert CopyProfile(attrs, au, 2) == CopyProfile(attrs, au, 1)["givenName" := au["givenName"]];
    assert CopyProfile(attrs, au, 3) == CopyProfile(attrs, au, 2)["sn" := au["sn"]];
    assert CopyProfile(attrs, au, 4) == CopyProfile(attrs, au, 3)["telephoneNumber" := au["telephoneNumber"]];
    assert CopyProfile(attrs, au, 5) == CopyProfile(attrs, au, 4)["mail" := au["mail"]];
  }

  /** Lines 143-150: copy the profile attributes from AD into attrs, then
      set homeDirectory and homePhone. A missing profile attribute raises
      KeyError, which the script catches; the attributes copied before it
      stay in attrs. */
  method FillProfile(attrs: Attrs, au: Attrs, uid: string) returns (out: Attrs, complete: bool)
    ensures complete <==> HasProfile(au)
    ensures complete ==> out == ProfileFilled(attrs, au, uid)
    ensures !complete ==> exists k ::
      && 0 <= k < |ProfileAttrs| && ProfileAttrs[k] !in au
      && (forall j :: 0 <= j < k ==> ProfileAttrs[j] in au)
      && out == CopyProfile(attrs, au, k)
    ensures SameOutside(attrs, out, CreateAttrs)
  {
    ProfilePresent(au);
    out := attrs;
    for k := 0 to |ProfileAttrs|
      invariant forall j :: 0 <= j < k ==> ProfileAttrs[j] in au
      invariant out == CopyProfile(attrs, au, k)
      invariant SameOutside(attrs, out, CreateAttrs)
    {
      var a := ProfileAttrs[k];
      if a !in au {
        return out, false;
      }
      out := out[a := au[a]];
    }
    out := out["homeDirectory" := ["/home/" + uid]]["homePhone" := au["telephoneNumber"]];
    complete := true;
  }

  /** The template is user_tpl itself, assigned into on every create, so it
      carries what earlier accounts wrote; it still agrees with user_tpl on
      everything the create path does not overwrite. */
  ghost predicate TemplateIntact(cfg: Config, tpl: Attrs) {
    SameOutside(cfg.userTpl, tpl, CreateAttrs)
  }

  /** Because every key an earlier account left in the template is written
      again before each add, each new account is built as if from a fresh
      copy of user_tpl. */
  lemma TemplateAliasingIsBenign(cfg: Config, tpl: Attrs, au: Attrs, uid: string, stamp: int, hash: string, n: int)
    requires TemplateIntact(cfg, tpl) && HasProfile(au)
    ensures NewAccount(tpl, au, uid, stamp, hash, n) == NewAccount(cfg.userTpl, au, uid, stamp, hash, n)
  {
    ProfileFilledUnfold(tpl, au, uid);
    ProfileFilledUnfold(cfg.userTpl, au, uid);
    var a, b, keep := cfg.userTpl, tpl, CreateAttrs;
    SameOutsideUpdate(a, b, keep, "cn", au["cn"]);
    a, b, keep := a["cn" := au["cn"]], b["cn" := au["cn"]], keep - {"cn"};
    SameOutsideUpdate(a, b, keep, "givenName", au["givenName"]);
    a, b, keep := a["givenName" := au["givenName"]], b["givenName" := au["givenName"]], keep - {"givenName"};
    SameOutsideUpdate(a, b, keep, "sn", au["sn"]);
    a, b, keep := a["sn" := au["sn"]], b["sn" := au["sn"]], keep - {"sn"};
    SameOutsideUpdate(a, b, keep, "telephoneNumber", au["telephoneNumber"]);
    a, b, keep := a["telephoneNumber" := au["telephoneNumber"]], b["telephoneNumber" := au["telephoneNumber"]],
                  keep - {"telephoneNumber"};
    SameOutsideUpdate(a, b, keep, "mail", au["mail"]);
    a, b, keep := a["mail" := au["mail"]], b["mail" := au["mail"]], keep - {"mail"};
    SameOutsideUpdate(a, b, keep, "homeDirectory", ["/home/" + uid]);
    a, b, keep := a["homeDirectory" := ["/home/" + uid]], b["homeDirectory" := ["/home/" + uid]], keep - {"homeDirectory"};
    SameOutsideUpdate(a, b, keep, "homePhone", au["telephoneNumber"]);
    a, b, keep := a["homePhone" := au["telephoneNumber"]], b["homePhone" := au["telephoneNumber"]], keep - {"homePhone"};
    SameOutsideUpdate(a, b, keep, "sambaPwdLastSet", [IntToString(stamp)]);
    a, b, keep := a["sambaPwdLastSet" := [IntToString(stamp)]], b["sambaPwdLastSet" := [IntToString(stamp)]],
                  keep - {"sambaPwdLastSet"};
    SameOutsideUpdate(a, b, keep, "uid", [uid]);
    a, b, keep := a["uid" := [uid]], b["uid" := [uid]], keep - {"uid"};
    SameOutsideUpdate(a, b, keep, "userPassword", [hash]);
    a, b, keep := a["userPassword" := [hash]], b["userPassword" := [hash]], keep - {"userPassword"};
    SameOutsideUpdate(a, b, keep, "uidNumber", [IntToString(n)]);
    a, b, keep := a["uidNumber" := [IntToString(n)]], b["uidNumber" := [IntToString(n)]], keep - {"uidNumber"};
    assert keep == {};
    SameOutsideNothing(a, b);
  }

  /** e is named after its uid: its DN is dn_prod % uid and its home
      directory /home/uid. */
  ghost predicate NamedAccount(cfg: Config, dn: DN, e: Attrs) {
    && "uid" in e && |e["uid"]| == 1 && dn == DnFor(cfg.dnProd, e["uid"][0])
    && "homeDirectory" in e && e["homeDirectory"] == ["/home/" + e["uid"][0]]
  }

  /** e has the five profile attributes, and homePhone is telephoneNumber. */
  ghost predicate ProfiledAccount(e: Attrs) {
    HasProfile(e) && "homePhone" in e && e["homePhone"] == e["telephoneNumber"]
  }

  /** e has one {SHA} password, one numeric sambaPwdLastSet and one numeric
      uidNumber. */
  ghost predicate CredentialedAccount(e: Attrs) {
    && "userPassword" in e && |e["userPassword"]| == 1 && LdapShaDigest(e["userPassword"][0]).Some?
    && "sambaPwdLastSet" in e && |e["sambaPwdLastSet"]| == 1 && IntAttr(e, "sambaPwdLastSet").Some?
    && "uidNumber" in e && |e["uidNumber"]| == 1 && UidNumberOf(e).Some?
  }

  /** The new entry holds the attributes of the template and, besides
      them, exactly the ones the create path writes. */
  lemma NewAccountKeys(tpl: Attrs, au: Attrs, uid: string, stamp: int, hash: string, n: int)
    requires HasProfile(au)
    ensures NewAccount(tpl, au, uid, stamp, hash, n).Keys == tpl.Keys + CreateAttrs
  {
    ProfileFilledUnfold(tpl, au, uid);
  }

  /** e is shaped like an account the pass created at dn. */
  ghost predicate Provisioned(cfg: Config, dn: DN, e: Attrs) {
    && NamedAccount(cfg, dn, e) && ProfiledAccount(e) && CredentialedAccount(e)
    && SameOutside(cfg.userTpl, e, CreateAttrs)
  }

  lemma NewAccountNamed(cfg: Config, au: Attrs, uid: string, stamp: int, hash: string, n: int)
    requires HasProfile(au)
    ensures var e := NewAccount(cfg.userTpl, au, uid, stamp, hash, n);
      "uid" in e && e["uid"] == [uid] && NamedAccount(cfg, DnFor(cfg.dnProd, uid), e)
  {
    ProfileFilledUnfold(cfg.userTpl, au, uid);
  }

  lemma NewAccountProfiled(cfg: Config, au: Attrs, uid: string, stamp: int, hash: string, n: int)
    requires HasProfile(au)
    ensures var e := NewAccount(cfg.userTpl, au, uid, stamp, hash, n);
      && ProfiledAccount(e)
      && e["cn"] == au["cn"] && e["givenName"] == au["givenName"] && e["sn"] == au["sn"]
      && e["telephoneNumber"] == au["telephoneNumber"] && e["mail"] == au["mail"]
  {
    ProfileFilledUnfold(cfg.userTpl, au, uid);
  }

  lemma NewAccountCredentialed(cfg: Config, au: Attrs, uid: string, stamp: int, hash: string, n: int)
    requires HasProfile(au) && LdapShaDigest(hash).Some?
    ensures var e := NewAccount(cfg.userTpl, au, uid, stamp, hash, n);
      && CredentialedAccount(e) && e["userPassword"] == [hash]
      && IntAttr(e, "sambaPwdLastSet") == Some(stamp) && UidNumberOf(e) == Some(n)
  {
    ParseIntToString(stamp);
    ParseIntToString(n);
  }

  lemma NewAccountFromTemplate(cfg: Config, au: Attrs, uid: string, stamp: int, hash: string, n: int)
    requires HasProfile(au)
    ensures SameOutside(cfg.userTpl, NewAccount(cfg.userTpl, au, uid, stamp, hash, n), CreateAttrs)
  {
    ProfileFilledUnfold(cfg.userTpl, au, uid);
  }

  /** A new account built by the create path has the provisioned shape, and
      its uidNumber reads back as the number it was given. */
  lemma NewAccountProvisioned(cfg: Config, au: Attrs, uid: string, stamp: int, hash: string, n: int)
    requires HasProfile(au) && LdapShaDigest(hash).Some?
    ensures Provisioned(cfg, DnFor(cfg.dnProd, uid), NewAccount(cfg.userTpl, au, uid, stamp, hash, n))
    ensures UidNumberOf(NewAccount(cfg.userTpl, au, uid, stamp, hash, n)) == Some(n)
  {
    NewAccountNamed(cfg, au, uid, stamp, hash, n);
    NewAccountProfiled(cfg, au, uid, stamp, hash, n);
    NewAccountCredentialed(cfg, au, uid, stamp, hash, n);
    NewAccountFromTemplate(cfg, au, uid, stamp, hash, n);
  }

  // ---------------------------------------------------------------------
  // What the pass leaves in the target directory
  // ---------------------------------------------------------------------

  /** after is before with a refreshed password: only userPassword and
      sambaPwdLastSet differ, the password is one {SHA} value, and the
      stored timestamp moved forward by more than the tolerance. */
  ghost predicate PasswordRefreshed(before: Attrs, after: Attrs) {
    && SameOutside(before, after, PasswordAttrs)
    && "userPassword" in after && |after["userPassword"]| == 1 && LdapShaDigest(after["userPassword"][0]).Some?
    && IntAttr(before, "sambaPwdLastSet").Some? && IntAttr(after, "sambaPwdLastSet").Some?
    && IntAttr(after, "sambaPwdLastSet").value > IntAttr(before, "sambaPwdLastSet").value + SkewTolerance
  }

  /** a's uidNumber is a number below b's. */
  ghost predicate UidBelow(a: Attrs, b: Attrs) {
    UidNumberOf(a).Some? && UidNumberOf(b).Some? && UidNumberOf(a).value < UidNumberOf(b).value
  }

  /** No entry that existed before the pass is deleted; each is untouched
      or has had its password refreshed. */
  ghost predicate ExistingKept(start: map<DN, Attrs>, now: map<DN, Attrs>) {
    forall dn :: dn in start ==> dn in now && (now[dn] == start[dn] || PasswordRefreshed(start[dn], now[dn]))
  }

  /** The entries the pass added are exactly those listed in created, each
      once. */
  ghost predicate CreatedExactly(start: map<DN, Attrs>, now: map<DN, Attrs>, created: seq<DN>) {
    && (forall i :: 0 <= i < |created| ==> created[i] in now && created[i] !in start)
    && (forall dn :: dn in now && dn !in start ==> dn in created)
    && (forall i, j :: 0 <= i < j < |created| ==> created[i] != created[j])
  }

  /** Every added entry has the shape of a created account. */
  ghost predicate AllProvisioned(cfg: Config, now: map<DN, Attrs>, created: seq<DN>) {
    forall i :: 0 <= i < |created| && created[i] in now ==> Provisioned(cfg, created[i], now[created[i]])
  }

  /** Each added uidNumber is above every uidNumber the scan saw before the
      pass. */
  ghost predicate AboveStartUids(start: map<DN, Attrs>, now: map<DN, Attrs>, created: seq<DN>) {
    forall i, dn :: 0 <= i < |created| && created[i] in now && Selected(start, dn, UidBase, UidFilter) ==>
      UidBelow(start[dn], now[created[i]])
  }

  /** An account added later has a larger uidNumber than an earlier one the
      scan sees. */
  ghost predicate IncreasingUids(now: map<DN, Attrs>, created: seq<DN>) {
    forall i, j :: 0 <= i < j < |created| && created[j] in now && Selected(now, created[i], UidBase, UidFilter) ==>
      UidBelow(now[created[i]], now[created[j]])
  }

  /** The state of the target after part of the pass, against the state
      before it; created lists the added DNs in the order of their adds. */
  ghost predicate PassInvariant(cfg: Config, start: map<DN, Attrs>, now: map<DN, Attrs>, created: seq<DN>) {
    && ExistingKept(start, now)
    && CreatedExactly(start, now, created)
    && AllProvisioned(cfg, now, created)
    && AboveStartUids(start, now, created)
    && IncreasingUids(now, created)
    && (UidsDistinct(start) ==> UidsDistinct(now))
  }

  /** A refresh rewrites userPassword and sambaPwdLastSet and nothing else;
      the new timestamp reads back as the number written. */
  lemma RefreshWrites(e: Attrs, hash: string, stamp: int)
    ensures SameOutside(e, e + PasswordChanges(hash, stamp), PasswordAttrs)
    ensures var after := e + PasswordChanges(hash, stamp);
      "userPassword" in after && after["userPassword"] == [hash] && IntAttr(after, "sambaPwdLastSet") == Some(stamp)
  {
    ParseIntToString(stamp);
  }

  lemma RefreshKeepsExisting(start: map<DN, Attrs>, now: map<DN, Attrs>, dn: DN, hash: string, stamp: int)
    requires ExistingKept(start, now)
    requires dn in start && IntAttr(start[dn], "sambaPwdLastSet").Some?
    requires stamp > IntAttr(start[dn], "sambaPwdLastSet").value + SkewTolerance
    requires LdapShaDigest(hash).Some?
    ensures ExistingKept(start, now[dn := now[dn] + PasswordChanges(hash, stamp)])
  {
    var changed := now[dn] + PasswordChanges(hash, stamp);
    RefreshWrites(now[dn], hash, stamp);
    assert SameOutside(start[dn], changed, PasswordAttrs);
    assert PasswordRefreshed(start[dn], changed);
  }

  /** Rewriting an entry that existed before the pass leaves the added
      entries as they were. */
  lemma UpdateKeepsCreated(cfg: Config, start: map<DN, Attrs>, now: map<DN, Attrs>, created: seq<DN>,
                           dn: DN, v: Attrs)
    requires CreatedExactly(start, now, created) && AllProvisioned(cfg, now, created)
    requires AboveStartUids(start, now, created)
    requires dn in start && dn in now
    ensures CreatedExactly(start, now[dn := v], created) && AllProvisioned(cfg, now[dn := v], created)
    ensures AboveStartUids(start, now[dn := v], created)
  {
    assert forall i :: 0 <= i < |created| ==> created[i] != dn && now[dn := v][created[i]] == now[created[i]];
  }

  lemma UpdateKeepsIncreasing(start: map<DN, Attrs>, now: map<DN, Attrs>, created: seq<DN>, dn: DN, v: Attrs)
    requires CreatedExactly(start, now, created) && IncreasingUids(now, created)
    requires dn in start && dn in now && SameScan(now, now[dn := v])
    ensures IncreasingUids(now[dn := v], created)
  {
    var after := now[dn := v];
    forall i, j | 0 <= i < j < |created| && created[j] in after && Selected(after, created[i], UidBase, UidFilter)
      ensures UidBelow(after[created[i]], after[created[j]])
    {
      assert created[i] != dn && created[j] != dn;
      assert Selected(now, created[i], UidBase, UidFilter);
    }
  }

  /** A successful refresh of an entry that existed before the pass keeps
      the invariant. */
  lemma PassInvariantRefresh(cfg: Config, start: map<DN, Attrs>, now: map<DN, Attrs>, created: seq<DN>,
                             dn: DN, hash: string, stamp: int)
    requires PassInvariant(cfg, start, now, created)
    requires dn in start && IntAttr(start[dn], "sambaPwdLastSet").Some?
    requires stamp > IntAttr(start[dn], "sambaPwdLastSet").value + SkewTolerance
    requires LdapShaDigest(hash).Some?
    ensures PassInvariant(cfg, start, now[dn := now[dn] + PasswordChanges(hash, stamp)], created)
  {
    var v := now[dn] + PasswordChanges(hash, stamp);
    RefreshKeepsExisting(start, now, dn, hash, stamp);
    RefreshWrites(now[dn], hash, stamp);
    assert "objectClass" !in PasswordAttrs && "uidNumber" !in PasswordAttrs;
    ScanAfterUpdate(now, dn, v);
    UpdateKeepsCreated(cfg, start, now, created, dn, v);
    UpdateKeepsIncreasing(start, now, created, dn, v);
    if UidsDistinct(start) {
      SameScanKeepsDistinct(now, now[dn := v]);
    }
  }

  /** The accounts the scan saw before the pass it still sees, with the
      uidNumbers they had. */
  lemma StartScanPersists(start: map<DN, Attrs>, now: map<DN, Attrs>, dn: DN)
    requires ExistingKept(start, now)
    requires Selected(start, dn, UidBase, UidFilter)
    ensures Selected(now, dn, UidBase, UidFilter) && UidNumberOf(now[dn]) == UidNumberOf(start[dn])
  {
    if now[dn] != start[dn] {
      assert "objectClass" !in PasswordAttrs && "uidNumber" !in PasswordAttrs;
      ScanReadsUidAttrs(start[dn], now[dn]);
    }
  }

  /** Every uidNumber the scan saw before the pass is at most the largest
      one it sees now. */
  lemma StartUidAtMostLast(start: map<DN, Attrs>, now: map<DN, Attrs>, d: DN, n: int)
    requires ExistingKept(start, now) && IsLastUid(now, n)
    requires Selected(start, d, UidBase, UidFilter)
    ensures UidNumberOf(start[d]).Some? && UidNumberOf(start[d]).value <= n
  {
    StartScanPersists(start, now, d);
  }

  lemma AddKeepsAboveStart(start: map<DN, Attrs>, now: map<DN, Attrs>, created: seq<DN>, dn: DN, attrs: Attrs, n: int)
    requires ExistingKept(start, now) && AboveStartUids(start, now, created)
    requires forall i :: 0 <= i < |created| ==> created[i] in now
    requires dn !in now && IsLastUid(now, n) && UidNumberOf(attrs) == Some(n + 1)
    ensures AboveStartUids(start, now[dn := attrs], created + [dn])
  {
    var after, created' := now[dn := attrs], created + [dn];
    forall i, d | 0 <= i < |created'| && created'[i] in after && Selected(start, d, UidBase, UidFilter)
      ensures UidBelow(start[d], after[created'[i]])
    {
      if i < |created| {
        assert created'[i] == created[i] && created[i] != dn;
        assert UidBelow(start[d], now[created[i]]);
      } else {
        assert created'[i] == dn;
        StartUidAtMostLast(start, now, d, n);
      }
    }
  }

  lemma AddKeepsIncreasing(now: map<DN, Attrs>, created: seq<DN>, dn: DN, attrs: Attrs, n: int)
    requires IncreasingUids(now, created) && forall i :: 0 <= i < |created| ==> created[i] in now
    requires dn !in now && IsLastUid(now, n) && UidNumberOf(attrs) == Some(n + 1)
    ensures IncreasingUids(now[dn := attrs], created + [dn])
  {
    var after, created' := now[dn := attrs], created + [dn];
    forall i, j | 0 <= i < j < |created'| && created'[j] in after && Selected(after, created'[i], UidBase, UidFilter)
      ensures UidBelow(after[created'[i]], after[created'[j]])
    {
      assert created'[i] == created[i] && created[i] != dn;
      assert Selected(now, created[i], UidBase, UidFilter);
      if j < |created| {
        assert created'[j] == created[j];
      }
    }
  }

  lemma AddKeepsCreated(start: map<DN, Attrs>, now: map<DN, Attrs>, created: seq<DN>, dn: DN, attrs: Attrs)
    requires ExistingKept(start, now) && CreatedExactly(start, now, created)
    requires dn !in now
    ensures ExistingKept(start, now[dn := attrs])
    ensures CreatedExactly(start, now[dn := attrs], created + [dn])
  {
    var created' := created + [dn];
    assert forall i :: 0 <= i < |created| ==> created'[i] == created[i];
    assert created'[|created|] == dn;
  }

  lemma AddKeepsProvisioned(cfg: Config, now: map<DN, Attrs>, created: seq<DN>, dn: DN, attrs: Attrs)
    requires AllProvisioned(cfg, now, created) && forall i :: 0 <= i < |created| ==> created[i] in now
    requires dn !in now && Provisioned(cfg, dn, attrs)
    ensures AllProvisioned(cfg, now[dn := attrs], created + [dn])
  {
    var after, created' := now[dn := attrs], created + [dn];
    forall i | 0 <= i < |created'| && created'[i] in after
      ensures Provisioned(cfg, created'[i], after[created'[i]])
    {
      if i < |created| {
        assert created'[i] == created[i] && created[i] != dn;
        assert after[created[i]] == now[created[i]];
      }
    }
  }

  /** A successful add of a provisioned account with uidNumber last + 1
      keeps the invariant. */
  lemma PassInvariantAdd(cfg: Config, start: map<DN, Attrs>, now: map<DN, Attrs>, created: seq<DN>,
                         dn: DN, attrs: Attrs, n: int)
    requires PassInvariant(cfg, start, now, created)
    requires dn !in now && IsLastUid(now, n)
    requires Provisioned(cfg, dn, attrs) && UidNumberOf(attrs) == Some(n + 1)
    ensures PassInvariant(cfg, start, now[dn := attrs], created + [dn])
  {
    AddKeepsCreated(start, now, created, dn, attrs);
    AddKeepsProvisioned(cfg, now, created, dn, attrs);
    AddKeepsAboveStart(start, now, created, dn, attrs, n);
    AddKeepsIncreasing(now, created, dn, attrs, n);
    if UidsDistinct(start) {
      AddKeepsUidsDistinct(now, n, dn, attrs);
    }
  }

  // ---------------------------------------------------------------------
  // The loop body and the pass
  // ---------------------------------------------------------------------

  /** What happened to one AD account. */
  datatype Outcome =
    | Skipped                           // excluded, or no division
    | Current                           // known, password not newer
    | Modified(ok: bool)                // refresh sent; ok if the server took it
    | MissingProfile                    // new, a profile attribute missing
    | NoUidNumber                       // new, getlastuid gave False or 0
    | Added(uidNumber: int, ok: bool)   // add sent with this uidNumber
    | Crashed                           // the script raised

  /** The effect of the create path on the target: a crash when a scanned
      uidNumber is unreadable, nothing when getlastuid gives False or 0, and
      otherwise an add of the account built from user_tpl with uidNumber
      last + 1, which leaves the target as it was when the server refuses. */
  ghost predicate CreateEffect(cfg: Config, au: Attrs, uid: string, stamp: int, hash: string,
                               before: map<DN, Attrs>, after: map<DN, Attrs>, outcome: Outcome) {
    || (outcome == Crashed && after == before &&
        exists dn :: Selected(before, dn, UidBase, UidFilter) && UidNumberOf(before[dn]).None?)
    || (outcome == NoUidNumber && after == before)
    || (outcome.Added? && outcome.uidNumber - 1 != 0 && IsLastUid(before, outcome.uidNumber - 1) && HasProfile(au) &&
        if outcome.ok then
          DnFor(cfg.dnProd, uid) !in before &&
          after == before[DnFor(cfg.dnProd, uid) := NewAccount(cfg.userTpl, au, uid, stamp, hash, outcome.uidNumber)]
        else after == before)
  }

  /** The effect of one iteration on the target, by the account's decision:
      nothing for a crash, a skip, a current password or a missing profile;
      for a refresh, the new password and timestamp at dn_prod % uid, or
      nothing when the server refuses; for a new account, the create path's
      effect. */
  ghost predicate StepEffect(cfg: Config, d: Decision, au: Attrs,
                             before: map<DN, Attrs>, after: map<DN, Attrs>, outcome: Outcome) {
    match d
    case Crash => outcome == Crashed && after == before
    case Skip => outcome == Skipped && after == before
    case UpToDate => outcome == Current && after == before
    case Incomplete => outcome == MissingProfile && after == before
    case Refresh(dn, hash, stamp) =>
      outcome.Modified? &&
      if outcome.ok then dn in before && after == before[dn := before[dn] + PasswordChanges(hash, stamp)]
      else after == before
    case Create(uid, stamp, hash) => CreateEffect(cfg, au, uid, stamp, hash, before, after, outcome)
  }

  /** The create path from the template fill on (lines 141-167), for an
      account whose profile is complete. */
  method CreateAccount(dir: TargetDirectory, cfg: Config, au: Attrs, uid: string, stamp: int, hash: string,
                       tpl: Attrs)
    returns (tplOut: Attrs, outcome: Outcome)
    modifies dir
    requires TemplateIntact(cfg, tpl) && HasProfile(au)
    ensures TemplateIntact(cfg, tplOut)
    ensures CreateEffect(cfg, au, uid, stamp, hash, old(dir.entries), dir.entries, outcome)
  {
    var attrs, complete := FillProfile(tpl, au, uid);
    SameOutsideTrans(cfg.userTpl, tpl, attrs, CreateAttrs);
    SameOutsideWrite(cfg.userTpl, attrs, CreateAttrs, "sambaPwdLastSet", [IntToString(stamp)]);
    attrs := attrs["sambaPwdLastSet" := [IntToString(stamp)]];
    SameOutsideWrite(cfg.userTpl, attrs, CreateAttrs, "uid", [uid]);
    attrs := attrs["uid" := [uid]];
    SameOutsideWrite(cfg.userTpl, attrs, CreateAttrs, "userPassword", [hash]);
    attrs := attrs["userPassword" := [hash]];
    tplOut := attrs;
    var last := GetLastUid(dir);
    if last == UidCrash {
      outcome := Crashed;
    } else if last == NoUid || last.n == 0 {
      outcome := NoUidNumber;
    } else {
      SameOutsideWrite(cfg.userTpl, attrs, CreateAttrs, "uidNumber", [IntToString(last.n + 1)]);
      attrs := attrs["uidNumber" := [IntToString(last.n + 1)]];
      TemplateAliasingIsBenign(cfg, tpl, au, uid, stamp, hash, last.n + 1);
      tplOut := attrs;
      var ok := dir.Add(DnFor(cfg.dnProd, uid), attrs);
      outcome := Added(last.n + 1, ok);
    }
  }

  /** One iteration of the loop over ADusers (lines 115-167). tpl is the
      template dict as earlier iterations left it; tplOut is how this one
      leaves it. */
  method ProcessAccount(dir: TargetDirectory, cfg: Config, index: map<string, string>,
                        byDn: map<DN, Attrs>, au: Attrs, tpl: Attrs)
    returns (tplOut: Attrs, outcome: Outcome)
    modifies dir
    requires TemplateIntact(cfg, tpl)
    ensures TemplateIntact(cfg, tplOut)
    ensures StepEffect(cfg, Decide(cfg, index, byDn, au), au, old(dir.entries), dir.entries, outcome)
  {
    tplOut := tpl;
    match Decide(cfg, index, byDn, au) {
      case Crash =>
        outcome := Crashed;
      case Skip =>
        outcome := Skipped;
      case UpToDate =>
        outcome := Current;
      case Refresh(dn, hash, stamp) =>
        var ok := dir.Modify(dn, PasswordChanges(hash, stamp));
        outcome := Modified(ok);
      case Incomplete =>
        var complete;
        tplOut, complete := FillProfile(tpl, au, First(au, "sAMAccountName").value);
        SameOutsideTrans(cfg.userTpl, tpl, tplOut, CreateAttrs);
        outcome := MissingProfile;
      case Create(uid, stamp, hash) =>
        CreateFacts(cfg, index, byDn, au);
        tplOut, outcome := CreateAccount(dir, cfg, au, uid, stamp, hash, tpl);
    }
  }

  /** An iteration's outcome is one its decision allows, and only a
      successful modify or add changes the target. */
  lemma StepOutcome(cfg: Config, index: map<string, string>, byDn: map<DN, Attrs>, au: Attrs,
                    before: map<DN, Attrs>, after: map<DN, Attrs>, outcome: Outcome)
    requires StepEffect(cfg, Decide(cfg, index, byDn, au), au, before, after, outcome)
    ensures OutcomeFits(Decide(cfg, index, byDn, au), outcome)
    ensures !(outcome.Modified? && outcome.ok) && !(outcome.Added? && outcome.ok) ==> after == before
  {
  }

  /** created after one iteration: the DN of a successful add appended. */
  function NextCreated(cfg: Config, d: Decision, o: Outcome, created: seq<DN>): seq<DN> {
    if d.Create? && o.Added? && o.ok then created + [DnFor(cfg.dnProd, d.uid)] else created
  }

  /** An accepted refresh keeps the pass invariant. */
  lemma RefreshStepKeepsInvariant(cfg: Config, index: map<string, string>, byDn: map<DN, Attrs>, au: Attrs,
                                  start: map<DN, Attrs>, before: map<DN, Attrs>, after: map<DN, Attrs>,
                                  created: seq<DN>)
    requires forall dn :: dn in byDn ==> dn in start && byDn[dn] == start[dn]
    requires PassInvariant(cfg, start, before, created)
    requires Decide(cfg, index, byDn, au).Refresh?
    requires StepEffect(cfg, Decide(cfg, index, byDn, au), au, before, after, Modified(true))
    ensures PassInvariant(cfg, start, after, created)
  {
    var d := Decide(cfg, index, byDn, au);
    RefreshFacts(cfg, index, byDn, au);
    PassInvariantRefresh(cfg, start, before, created, d.dn, d.hash, d.stamp);
  }

  /** An accepted add keeps the pass invariant, with the new DN recorded. */
  lemma CreateStepKeepsInvariant(cfg: Config, index: map<string, string>, byDn: map<DN, Attrs>, au: Attrs,
                                 start: map<DN, Attrs>, before: map<DN, Attrs>, after: map<DN, Attrs>,
                                 created: seq<DN>, n: int)
    requires PassInvariant(cfg, start, before, created)
    requires Decide(cfg, index, byDn, au).Create?
    requires StepEffect(cfg, Decide(cfg, index, byDn, au), au, before, after, Added(n, true))
    ensures PassInvariant(cfg, start, after, created + [DnFor(cfg.dnProd, Decide(cfg, index, byDn, au).uid)])
  {
    var d := Decide(cfg, index, byDn, au);
    CreateFacts(cfg, index, byDn, au);
    NewAccountProvisioned(cfg, au, d.uid, d.stamp, d.hash, n);
    PassInvariantAdd(cfg, start, before, created, DnFor(cfg.dnProd, d.uid),
                     NewAccount(cfg.userTpl, au, d.uid, d.stamp, d.hash, n), n - 1);
  }

  /** One iteration keeps the pass invariant. */
  lemma StepKeepsInvariant(cfg: Config, index: map<string, string>, byDn: map<DN, Attrs>, au: Attrs,
                           start: map<DN, Attrs>, before: map<DN, Attrs>, after: map<DN, Attrs>,
                           created: seq<DN>, outcome: Outcome)
    requires forall dn :: dn in byDn ==> dn in start && byDn[dn] == start[dn]
    requires PassInvariant(cfg, start, before, created)
    requires StepEffect(cfg, Decide(cfg, index, byDn, au), au, before, after, outcome)
    ensures PassInvariant(cfg, start, after, NextCreated(cfg, Decide(cfg, index, byDn, au), outcome, created))
  {
    var d := Decide(cfg, index, byDn, au);
    StepOutcome(cfg, index, byDn, au, before, after, outcome);
    if d.Refresh? && outcome.Modified? && outcome.ok {
      RefreshStepKeepsInvariant(cfg, index, byDn, au, start, before, after, created);
    } else if d.Create? && outcome.Added? && outcome.ok {
      CreateStepKeepsInvariant(cfg, index, byDn, au, start, before, after, created, outcome.uidNumber);
    }
  }

  // ---------------------------------------------------------------------
  // Tracing every change back to the AD account behind it
  // ---------------------------------------------------------------------

  /** The decision for each AD account, in the order of the loop. */
  function Decisions(cfg: Config, index: map<string, string>, byDn: map<DN, Attrs>, users: seq<Entry>):
    (ds: seq<Decision>)
    ensures |ds| == |users|
    decreases |users|
  {
    if |users| == 0 then []
    else
      var n := |users| - 1;
      Decisions(cfg, index, byDn, users[..n]) + [Decide(cfg, index, byDn, users[n].1)]
  }

  /** The decision at position k is the one Decide takes for the k-th AD
      account. */
  lemma {:induction false} DecisionAt(cfg: Config, index: map<string, string>, byDn: map<DN, Attrs>,
                                      users: seq<Entry>, k: nat)
    requires k < |users|
    ensures Decisions(cfg, index, byDn, users)[k] == Decide(cfg, index, byDn, users[k].1)
    decreases |users|
  {
    var n := |users| - 1;
    if k < n {
      DecisionAt(cfg, index, byDn, users[..n], k);
    }
  }

  /** o is an outcome that decision d allows. */
  predicate OutcomeFits(d: Decision, o: Outcome) {
    match d
    case Crash => o == Crashed
    case Skip => o == Skipped
    case UpToDate => o == Current
    case Refresh(_, _, _) => o.Modified?
    case Incomplete => o == MissingProfile
    case Create(_, _, _) => o == Crashed || o == NoUidNumber || o.Added?
  }

  /** after is before with the password and timestamp of refresh d written,
      a modify the server took. */
  ghost predicate RefreshedBy(d: Decision, o: Outcome, dn: DN, before: Attrs, after: Attrs) {
    d.Refresh? && d.dn == dn && o == Modified(true) && after == before + PasswordChanges(d.hash, d.stamp)
  }

  /** e is the account that create decision d for the AD attributes au
      added at dn. */
  ghost predicate AddedBy(cfg: Config, d: Decision, o: Outcome, au: Attrs, dn: DN, e: Attrs) {
    && d.Create? && HasProfile(au) && dn == DnFor(cfg.dnProd, d.uid) && o.Added? && o.ok
    && e == NewAccount(cfg.userTpl, au, d.uid, d.stamp, d.hash, o.uidNumber)
  }

  /** Each of the first |outcomes| outcomes fits its account's decision. */
  ghost predicate OutcomesFit(ds: seq<Decision>, outcomes: seq<Outcome>)
    requires |outcomes| <= |ds|
  {
    forall i :: 0 <= i < |outcomes| ==> OutcomeFits(ds[i], outcomes[i])
  }

  /** Every entry that changed carries the password and timestamp of the
      refresh of one of the first |outcomes| accounts. */
  ghost predicate ChangesRefreshed(start: map<DN, Attrs>, now: map<DN, Attrs>, ds: seq<Decision>, outcomes: seq<Outcome>)
    requires |outcomes| <= |ds|
  {
    forall dn :: dn in start && dn in now && now[dn] != start[dn] ==>
      exists i :: 0 <= i < |outcomes| && RefreshedBy(ds[i], outcomes[i], dn, start[dn], now[dn])
  }

  /** Every added entry is the account that the create of one of the first
      |outcomes| accounts built from that account's AD attributes. */
  ghost predicate AddsExplained(cfg: Config, now: map<DN, Attrs>, created: seq<DN>,
                                users: seq<Entry>, ds: seq<Decision>, outcomes: seq<Outcome>)
    requires |outcomes| <= |users| && |users| == |ds|
  {
    forall j :: 0 <= j < |created| && created[j] in now ==>
      exists i :: 0 <= i < |outcomes| && AddedBy(cfg, ds[i], outcomes[i], users[i].1, created[j], now[created[j]])
  }

  /** After the first |outcomes| AD accounts: each outcome fits its
      account's decision; every entry that changed carries the password of
      some account's refresh; every added entry is the account some create
      built from its own AD attributes. */
  ghost predicate Explained(cfg: Config, start: map<DN, Attrs>, now: map<DN, Attrs>, created: seq<DN>,
                            users: seq<Entry>, ds: seq<Decision>, outcomes: seq<Outcome>)
    requires |outcomes| <= |users| && |users| == |ds|
  {
    OutcomesFit(ds, outcomes) && ChangesRefreshed(start, now, ds, outcomes) &&
    AddsExplained(cfg, now, created, users, ds, outcomes)
  }

  /** A second refresh overwrites the first one completely. */
  lemma PasswordChangesTwice(e: Attrs, h0: string, s0: int, h: string, s: int)
    ensures (e + PasswordChanges(h0, s0)) + PasswordChanges(h, s) == e + PasswordChanges(h, s)
  {
    var a, b := (e + PasswordChanges(h0, s0)) + PasswordChanges(h, s), e + PasswordChanges(h, s);
    assert forall k :: k in a <==> k in b;
  }

  lemma OutcomesFitExtend(ds: seq<Decision>, outcomes: seq<Outcome>, o: Outcome)
    requires |outcomes| < |ds| && OutcomesFit(ds, outcomes) && OutcomeFits(ds[|outcomes|], o)
    ensures OutcomesFit(ds, outcomes + [o])
  {
    var os := outcomes + [o];
    assert forall i :: 0 <= i < |outcomes| ==> os[i] == outcomes[i];
  }

  /** More outcomes, and entries as they were, keep the changes explained. */
  lemma ChangesRefreshedExtend(start: map<DN, Attrs>, now: map<DN, Attrs>, ds: seq<Decision>,
                               outcomes: seq<Outcome>, o: Outcome)
    requires |outcomes| < |ds| && ChangesRefreshed(start, now, ds, outcomes)
    ensures ChangesRefreshed(start, now, ds, outcomes + [o])
  {
    var os := outcomes + [o];
    forall dn | dn in start && dn in now && now[dn] != start[dn]
      ensures exists i :: 0 <= i < |os| && RefreshedBy(ds[i], os[i], dn, start[dn], now[dn])
    {
      var i :| 0 <= i < |outcomes| && RefreshedBy(ds[i], outcomes[i], dn, start[dn], now[dn]);
      assert os[i] == outcomes[i];
    }
  }

  lemma AddsExplainedExtend(cfg: Config, now: map<DN, Attrs>, created: seq<DN>,
                            users: seq<Entry>, ds: seq<Decision>, outcomes: seq<Outcome>, o: Outcome)
    requires |outcomes| < |users| && |users| == |ds| && AddsExplained(cfg, now, created, users, ds, outcomes)
    ensures AddsExplained(cfg, now, created, users, ds, outcomes + [o])
  {
    var os := outcomes + [o];
    forall j | 0 <= j < |created| && created[j] in now
      ensures exists i :: 0 <= i < |os| && AddedBy(cfg, ds[i], os[i], users[i].1, created[j], now[created[j]])
    {
      var i :| 0 <= i < |outcomes| && AddedBy(cfg, ds[i], outcomes[i], users[i].1, created[j], now[created[j]]);
      assert os[i] == outcomes[i];
    }
  }

  /** An iteration that changes nothing keeps everything explained. */
  lemma ExplainedSame(cfg: Config, start: map<DN, Attrs>, now: map<DN, Attrs>, created: seq<DN>,
                      users: seq<Entry>, ds: seq<Decision>, outcomes: seq<Outcome>, o: Outcome)
    requires |outcomes| < |users| && |users| == |ds|
    requires Explained(cfg, start, now, created, users, ds, outcomes) && OutcomeFits(ds[|outcomes|], o)
    ensures Explained(cfg, start, now, created, users, ds, outcomes + [o])
  {
    OutcomesFitExtend(ds, outcomes, o);
    ChangesRefreshedExtend(start, now, ds, outcomes, o);
    AddsExplainedExtend(cfg, now, created, users, ds, outcomes, o);
  }

  /** The entry a refresh of the next account rewrites is explained by it;
      the others are explained as before. */
  lemma ChangesRefreshedStep(start: map<DN, Attrs>, now: map<DN, Attrs>, ds: seq<Decision>, outcomes: seq<Outcome>)
    requires |outcomes| < |ds| && ChangesRefreshed(start, now, ds, outcomes)
    requires ds[|outcomes|].Refresh? && ds[|outcomes|].dn in start && ds[|outcomes|].dn in now
    ensures var d := ds[|outcomes|];
      ChangesRefreshed(start, now[d.dn := now[d.dn] + PasswordChanges(d.hash, d.stamp)], ds, outcomes + [Modified(true)])
  {
    var k, d := |outcomes|, ds[|outcomes|];
    var after, os := now[d.dn := now[d.dn] + PasswordChanges(d.hash, d.stamp)], outcomes + [Modified(true)];
    if now[d.dn] != start[d.dn] {
      var i :| 0 <= i < k && RefreshedBy(ds[i], outcomes[i], d.dn, start[d.dn], now[d.dn]);
      PasswordChangesTwice(start[d.dn], ds[i].hash, ds[i].stamp, d.hash, d.stamp);
    }
    assert RefreshedBy(ds[k], os[k], d.dn, start[d.dn], after[d.dn]);
    forall dn | dn in start && dn in after && after[dn] != start[dn]
      ensures exists i :: 0 <= i < |os| && RefreshedBy(ds[i], os[i], dn, start[dn], after[dn])
    {
      if dn != d.dn {
        var i :| 0 <= i < k && RefreshedBy(ds[i], outcomes[i], dn, start[dn], now[dn]);
        assert os[i] == outcomes[i];
      }
    }
  }

  /** Rewriting an entry that is not an added one keeps the adds explained. */
  lemma AddsExplainedUpdate(cfg: Config, now: map<DN, Attrs>, created: seq<DN>,
                            users: seq<Entry>, ds: seq<Decision>, outcomes: seq<Outcome>, o: Outcome, dn: DN, v: Attrs)
    requires |outcomes| < |users| && |users| == |ds| && AddsExplained(cfg, now, created, users, ds, outcomes)
    requires forall j :: 0 <= j < |created| ==> created[j] != dn
    ensures AddsExplained(cfg, now[dn := v], created, users, ds, outcomes + [o])
  {
    AddsExplainedExtend(cfg, now, created, users, ds, outcomes, o);
  }

  /** A modify the server took for the next account's refresh is explained
      by that account. */
  lemma ExplainedRefresh(cfg: Config, start: map<DN, Attrs>, now: map<DN, Attrs>, created: seq<DN>,
                         users: seq<Entry>, ds: seq<Decision>, outcomes: seq<Outcome>)
    requires |outcomes| < |users| && |users| == |ds|
    requires Explained(cfg, start, now, created, users, ds, outcomes)
    requires ds[|outcomes|].Refresh? && ds[|outcomes|].dn in start && ds[|outcomes|].dn in now
    requires forall j :: 0 <= j < |created| ==> created[j] !in start
    ensures var d := ds[|outcomes|];
      Explained(cfg, start, now[d.dn := now[d.dn] + PasswordChanges(d.hash, d.stamp)], created, users, ds,
                outcomes + [Modified(true)])
  {
    var d := ds[|outcomes|];
    OutcomesFitExtend(ds, outcomes, Modified(true));
    ChangesRefreshedStep(start, now, ds, outcomes);
    AddsExplainedUpdate(cfg, now, created, users, ds, outcomes, Modified(true), d.dn,
                        now[d.dn] + PasswordChanges(d.hash, d.stamp));
  }

  /** The entry an add for the next account creates is explained by it. */
  lemma AddsExplainedStep(cfg: Config, now: map<DN, Attrs>, created: seq<DN>,
                          users: seq<Entry>, ds: seq<Decision>, outcomes: seq<Outcome>, n: int)
    requires |outcomes| < |users| && |users| == |ds| && AddsExplained(cfg, now, created, users, ds, outcomes)
    requires ds[|outcomes|].Create? && HasProfile(users[|outcomes|].1)
    requires DnFor(cfg.dnProd, ds[|outcomes|].uid) !in now
    ensures var d, au := ds[|outcomes|], users[|outcomes|].1;
      AddsExplained(cfg, now[DnFor(cfg.dnProd, d.uid) := NewAccount(cfg.userTpl, au, d.uid, d.stamp, d.hash, n)],
                    created + [DnFor(cfg.dnProd, d.uid)], users, ds, outcomes + [Added(n, true)])
  {
    var k, d, au := |outcomes|, ds[|outcomes|], users[|outcomes|].1;
    var dn := DnFor(cfg.dnProd, d.uid);
    var after, os, cs := now[dn := NewAccount(cfg.userTpl, au, d.uid, d.stamp, d.hash, n)],
                         outcomes + [Added(n, true)], created + [dn];
    assert AddedBy(cfg, ds[k], os[k], users[k].1, dn, after[dn]);
    forall j | 0 <= j < |cs| && cs[j] in after
      ensures exists i :: 0 <= i < |os| && AddedBy(cfg, ds[i], os[i], users[i].1, cs[j], after[cs[j]])
    {
      if j < |created| && created[j] in now {
        assert cs[j] == created[j] && created[j] != dn;
        var i :| 0 <= i < k && AddedBy(cfg, ds[i], outcomes[i], users[i].1, created[j], now[created[j]]);
        assert os[i] == outcomes[i];
      } else {
        assert cs[j] == dn;
      }
    }
  }

  /** Adding an entry that did not exist before the pass keeps the changes
      explained. */
  lemma ChangesRefreshedAdd(start: map<DN, Attrs>, now: map<DN, Attrs>, ds: seq<Decision>,
                            outcomes: seq<Outcome>, o: Outcome, dn: DN, v: Attrs)
    requires |outcomes| < |ds| && ChangesRefreshed(start, now, ds, outcomes) && dn !in start
    ensures ChangesRefreshed(start, now[dn := v], ds, outcomes + [o])
  {
    ChangesRefreshedExtend(start, now, ds, outcomes, o);
  }

  /** An add the server took for the next account's create is explained by
      that account. */
  lemma ExplainedAdd(cfg: Config, start: map<DN, Attrs>, now: map<DN, Attrs>, created: seq<DN>,
                     users: seq<Entry>, ds: seq<Decision>, outcomes: seq<Outcome>, n: int)
    requires |outcomes| < |users| && |users| == |ds|
    requires Explained(cfg, start, now, created, users, ds, outcomes)
    requires ds[|outcomes|].Create? && HasProfile(users[|outcomes|].1)
    requires DnFor(cfg.dnProd, ds[|outcomes|].uid) !in now
    requires forall dn :: dn in start ==> dn in now
    ensures var d, au := ds[|outcomes|], users[|outcomes|].1;
      Explained(cfg, start, now[DnFor(cfg.dnProd, d.uid) := NewAccount(cfg.userTpl, au, d.uid, d.stamp, d.hash, n)],
                created + [DnFor(cfg.dnProd, d.uid)], users, ds, outcomes + [Added(n, true)])
  {
    var d, au := ds[|outcomes|], users[|outcomes|].1;
    var dn := DnFor(cfg.dnProd, d.uid);
    OutcomesFitExtend(ds, outcomes, Added(n, true));
    ChangesRefreshedAdd(start, now, ds, outcomes, Added(n, true), dn, NewAccount(cfg.userTpl, au, d.uid, d.stamp, d.hash, n));
    AddsExplainedStep(cfg, now, created, users, ds, outcomes, n);
  }

  /** One iteration keeps every change explained by the account behind it. */
  lemma StepExplained(cfg: Config, index: map<string, string>, byDn: map<DN, Attrs>,
                      start: map<DN, Attrs>, before: map<DN, Attrs>, after: map<DN, Attrs>, created: seq<DN>,
                      users: seq<Entry>, ds: seq<Decision>, outcomes: seq<Outcome>, outcome: Outcome)
    requires |outcomes| < |users| && |users| == |ds|
    requires ds[|outcomes|] == Decide(cfg, index, byDn, users[|outcomes|].1)
    requires forall dn :: dn in byDn ==> dn in start && byDn[dn] == start[dn]
    requires ExistingKept(start, before) && CreatedExactly(start, before, created)
    requires Explained(cfg, start, before, created, users, ds, outcomes)
    requires StepEffect(cfg, Decide(cfg, index, byDn, users[|outcomes|].1), users[|outcomes|].1, before, after, outcome)
    ensures Explained(cfg, start, after, NextCreated(cfg, ds[|outcomes|], outcome, created), users, ds,
                      outcomes + [outcome])
  {
    var k := |outcomes|;
    var au, d := users[k].1, ds[k];
    StepOutcome(cfg, index, byDn, au, before, after, outcome);
    if d.Refresh? && outcome.Modified? && outcome.ok {
      RefreshFacts(cfg, index, byDn, au);
      ExplainedRefresh(cfg, start, before, created, users, ds, outcomes);
    } else if d.Create? && outcome.Added? && outcome.ok {
      CreateFacts(cfg, index, byDn, au);
      ExplainedAdd(cfg, start, before, created, users, ds, outcomes, outcome.uidNumber);
    } else {
      ExplainedSame(cfg, start, before, created, users, ds, outcomes, outcome);
    }
  }

  /** The state of the pass after its first |outcomes| AD accounts: the
      target keeps the pass invariant and every change so far is explained
      by one of those accounts. */
  ghost predicate Progress(cfg: Config, start: map<DN, Attrs>, now: map<DN, Attrs>, created: seq<DN>,
                           users: seq<Entry>, ds: seq<Decision>, outcomes: seq<Outcome>) {
    && |outcomes| <= |users| && |users| == |ds|
    && PassInvariant(cfg, start, now, created)
    && Explained(cfg, start, now, created, users, ds, outcomes)
  }

  /** Why the loop stops at an AD account whose decision is d: the script
      raises on the account itself (d is Crash), or d is a create and
      getlastuid raises because a scanned entry of the target, as it stands,
      has a missing or non-numeric uidNumber. */
  ghost predicate AbortCause(d: Decision, entries: map<DN, Attrs>) {
    || d == Crash
    || (d.Create? && exists dn :: Selected(entries, dn, UidBase, UidFilter) && UidNumberOf(entries[dn]).None?)
  }

  /** A crashed iteration crashed for a reason the script has: the account
      itself raises, or getlastuid does on the target the step left as it
      was. */
  lemma CrashHasCause(cfg: Config, index: map<string, string>, byDn: map<DN, Attrs>, au: Attrs,
                      before: map<DN, Attrs>, after: map<DN, Attrs>)
    requires StepEffect(cfg, Decide(cfg, index, byDn, au), au, before, after, Crashed)
    ensures after == before && AbortCause(Decide(cfg, index, byDn, au), after)
  {
  }

  /** The pass after its first |outcomes| AD accounts, which stopped it
      exactly when aborted: it is in Progress, no account before the last
      one crashed, the last one crashed exactly when aborted, and then for
      a reason AbortCause names. */
  ghost predicate Walked(cfg: Config, start: map<DN, Attrs>, now: map<DN, Attrs>, created: seq<DN>,
                         users: seq<Entry>, ds: seq<Decision>, outcomes: seq<Outcome>, aborted: bool) {
    && Progress(cfg, start, now, created, users, ds, outcomes)
    && (forall j :: 0 <= j < |outcomes| - 1 ==> outcomes[j] != Crashed)
    && (aborted <==> 0 < |outcomes| && outcomes[|outcomes| - 1] == Crashed)
    && (aborted ==> AbortCause(ds[|outcomes| - 1], now))
  }

  /** One iteration of the pass together with its bookkeeping: created
      grows by the DN of a successful add, outcomes by this account's
      outcome. */
  method SyncAccount(dir: TargetDirectory, cfg: Config, index: map<string, string>, byDn: map<DN, Attrs>,
                     au: Attrs, tpl: Attrs, ghost start: map<DN, Attrs>, ghost created: seq<DN>,
                     ghost users: seq<Entry>, ghost ds: seq<Decision>, ghost outcomes: seq<Outcome>)
    returns (tplOut: Attrs, outcome: Outcome, ghost created': seq<DN>)
    modifies dir
    requires forall dn :: dn in byDn ==> dn in start && byDn[dn] == start[dn]
    requires TemplateIntact(cfg, tpl)
    requires |outcomes| < |users| && users[|outcomes|].1 == au
    requires ds == Decisions(cfg, index, byDn, users)
    requires Walked(cfg, start, dir.entries, created, users, ds, outcomes, false)
    ensures TemplateIntact(cfg, tplOut)
    ensures StepEffect(cfg, ds[|outcomes|], au, old(dir.entries), dir.entries, outcome)
    ensures OutcomeFits(ds[|outcomes|], outcome)
    ensures Walked(cfg, start, dir.entries, created', users, ds, outcomes + [outcome], outcome == Crashed)
  {
    ghost var before := dir.entries;
    DecisionAt(cfg, index, byDn, users, |outcomes|);
    tplOut, outcome := ProcessAccount(dir, cfg, index, byDn, au, tpl);
    created' := NextCreated(cfg, Decide(cfg, index, byDn, au), outcome, created);
    StepOutcome(cfg, index, byDn, au, before, dir.entries, outcome);
    if outcome == Crashed {
      CrashHasCause(cfg, index, byDn, au, before, dir.entries);
    }
    StepKeepsInvariant(cfg, index, byDn, au, start, before, dir.entries, created, outcome);
    StepExplained(cfg, index, byDn, start, before, dir.entries, created, users, ds, outcomes, outcome);
  }

  /** How the pass ends: having walked every account, at sys.exit(2), or
      at an uncaught exception. */
  datatype PassResult = Completed | Exit2 | Aborted

  /** Python's truth value of a search result: False and [] are false. */
  predicate Truthy(r: Option<seq<Entry>>) {
    r.Some? && |r.value| > 0
  }

  /** A target search answer is truthy exactly when the search selects
      some entry; a failed search (False) never is. */
  lemma TruthyOfSearch(r: seq<Entry>, entries: map<DN, Attrs>, base: DN, f: Filter)
    requires IsSearchResult(r, entries, base, f)
    ensures Truthy(Some(r)) <==> exists dn :: Selected(entries, dn, base, f)
    ensures !Truthy(None)
  {
    EmptySearchResult(r, entries, base, f);
  }

  /** A pass that changes nothing keeps every invariant. */
  lemma NothingChanged(cfg: Config, s: map<DN, Attrs>)
    ensures PassInvariant(cfg, s, s, [])
  {
  }

  /** Before the first account nothing needs explaining. */
  lemma ExplainedNothing(cfg: Config, s: map<DN, Attrs>, users: seq<Entry>, ds: seq<Decision>)
    requires |users| == |ds|
    ensures Explained(cfg, s, s, [], users, ds, [])
  {
  }

  /** How a pass that reaches the loop ends: it ends Completed or Aborted;
      no account before the last one handled crashed; a completed pass
      handled every account and none crashed; an aborted pass stopped at an
      account that crashed, for a reason AbortCause names, with its own
      decision ds[|outcomes| - 1]. */
  ghost predicate PassOutcomes(result: PassResult, users: seq<Entry>, ds: seq<Decision>, outcomes: seq<Outcome>,
                               entries: map<DN, Attrs>) {
    && |outcomes| <= |users|
    && (forall i :: 0 <= i < |outcomes| - 1 ==> outcomes[i] != Crashed)
    && (result == Completed || result == Aborted)
    && (result == Completed ==> |outcomes| == |users| && forall i :: 0 <= i < |outcomes| ==> outcomes[i] != Crashed)
    && (result == Aborted ==>
          && 0 < |outcomes| <= |ds|
          && outcomes[|outcomes| - 1] == Crashed
          && AbortCause(ds[|outcomes| - 1], entries))
  }

  /** A walk that stopped, at a crash or after the last account, ends the
      pass as PassOutcomes says. */
  lemma PassEnds(cfg: Config, start: map<DN, Attrs>, now: map<DN, Attrs>, created: seq<DN>,
                 users: seq<Entry>, ds: seq<Decision>, outcomes: seq<Outcome>, aborted: bool)
    requires Walked(cfg, start, now, created, users, ds, outcomes, aborted)
    requires aborted || |outcomes| == |users|
    ensures PassOutcomes(if aborted then Aborted else Completed, users, ds, outcomes, now)
  {
  }

  /** states is the target before each handled AD account and after the
      last one: the i-th account took states[i] to states[i + 1] exactly as
      its decision ds[i] and its outcome say. */
  ghost predicate Traced(cfg: Config, ds: seq<Decision>, users: seq<Entry>, states: seq<map<DN, Attrs>>,
                         outcomes: seq<Outcome>) {
    && |outcomes| <= |ds| && |outcomes| <= |users| && |states| == |outcomes| + 1
    && forall i :: 0 <= i < |outcomes| ==> StepEffect(cfg, ds[i], users[i].1, states[i], states[i + 1], outcomes[i])
  }

  /** One more iteration extends the trace by its own step. */
  lemma TracedStep(cfg: Config, ds: seq<Decision>, users: seq<Entry>, states: seq<map<DN, Attrs>>,
                   outcomes: seq<Outcome>, after: map<DN, Attrs>, outcome: Outcome)
    requires Traced(cfg, ds, users, states, outcomes)
    requires |outcomes| < |ds| && |outcomes| < |users|
    requires StepEffect(cfg, ds[|outcomes|], users[|outcomes|].1, states[|outcomes|], after, outcome)
    ensures Traced(cfg, ds, users, states + [after], outcomes + [outcome])
  {
  }

  /** The loop over ADusers (lines 114-167), with ldap_accs and
      dict(LDAPusers) built from the target as it was before the loop. It
      runs through every account unless one crashes; a refused modify or
      add does not stop it. */
  method SyncAll(dir: TargetDirectory, cfg: Config, index: map<string, string>, byDn: map<DN, Attrs>,
                 users: seq<Entry>)
    returns (result: PassResult, ghost outcomes: seq<Outcome>, ghost created: seq<DN>,
             ghost states: seq<map<DN, Attrs>>)
    modifies dir
    requires forall dn :: dn in byDn ==> dn in dir.entries && byDn[dn] == dir.entries[dn]
    ensures Traced(cfg, Decisions(cfg, index, byDn, users), users, states, outcomes)
    ensures states[0] == old(dir.entries) && states[|outcomes|] == dir.entries
    ensures PassOutcomes(result, users, Decisions(cfg, index, byDn, users), outcomes, dir.entries)
    ensures Explained(cfg, old(dir.entries), dir.entries, created, users, Decisions(cfg, index, byDn, users), outcomes)
    ensures PassInvariant(cfg, old(dir.entries), dir.entries, created)
  {
    created, outcomes, states := [], [], [dir.entries];
    ghost var ds := Decisions(cfg, index, byDn, users);
    NothingChanged(cfg, dir.entries);
    ExplainedNothing(cfg, dir.entries, users, ds);
    var tpl := cfg.userTpl;
    var i, aborted := 0, false;
    while i < |users| && !aborted
      invariant |outcomes| == i <= |users|
      invariant forall dn :: dn in byDn ==> dn in old(dir.entries) && byDn[dn] == old(dir.entries)[dn]
      invariant TemplateIntact(cfg, tpl)
      invariant Walked(cfg, old(dir.entries), dir.entries, created, users, ds, outcomes, aborted)
      invariant Traced(cfg, ds, users, states, outcomes)
      invariant states[0] == old(dir.entries) && states[|outcomes|] == dir.entries
    {
      var outcome;
      tpl, outcome, created := SyncAccount(dir, cfg, index, byDn, users[i].1, tpl, old(dir.entries), created,
                                           users, ds, outcomes);
      TracedStep(cfg, ds, users, states, outcomes, dir.entries, outcome);
      outcomes, aborted, i, states := outcomes + [outcome], outcome == Crashed, i + 1, states + [dir.entries];
    }
    PassEnds(cfg, old(dir.entries), dir.entries, created, users, ds, outcomes, aborted);
    result := if aborted then Aborted else Completed;
  }

  /** The pass gets to the loop over ADusers: the searches are not both
      falsy, the target search answered, ldap_accs could be built, and
      ADusers is a list. */
  predicate ReachesLoop(adUsers: Option<seq<Entry>>, ldapUsers: Option<seq<Entry>>) {
    && (Truthy(adUsers) || Truthy(ldapUsers))
    && ldapUsers.Some? && UidIndex(ldapUsers.value).Some? && adUsers.Some?
  }

  /** The sync pass, lines 105-167. adUsers is the result of the search of
      Active Directory (None for the False of a failed connection).
      ldapUsers is the answer of the target search, outcomes what happened
      to each AD account handled, and created the DNs the pass added, in
      order. */
  method Run(dir: TargetDirectory, cfg: Config, adUsers: Option<seq<Entry>>)
    returns (result: PassResult, ghost ldapUsers: Option<seq<Entry>>, ghost outcomes: seq<Outcome>,
             ghost created: seq<DN>, ghost states: seq<map<DN, Attrs>>)
    modifies dir
    ensures ldapUsers.Some? ==> IsSearchResult(ldapUsers.value, old(dir.entries), cfg.baseDnL, cfg.userFltrL)
    ensures result == Exit2 <==> !Truthy(adUsers) && !Truthy(ldapUsers)
    ensures !ReachesLoop(adUsers, ldapUsers) ==>
      && result != Completed && outcomes == [] && created == [] && states == [old(dir.entries)]
      && dir.entries == old(dir.entries)
    ensures ReachesLoop(adUsers, ldapUsers) ==>
      && Traced(cfg, Decisions(cfg, UidIndex(ldapUsers.value).value, DnIndex(ldapUsers.value), adUsers.value),
                adUsers.value, states, outcomes)
      && states[0] == old(dir.entries) && states[|outcomes|] == dir.entries
      && PassOutcomes(result, adUsers.value,
                      Decisions(cfg, UidIndex(ldapUsers.value).value, DnIndex(ldapUsers.value), adUsers.value),
                      outcomes, dir.entries)
      && Explained(cfg, old(dir.entries), dir.entries, created, adUsers.value,
                   Decisions(cfg, UidIndex(ldapUsers.value).value, DnIndex(ldapUsers.value), adUsers.value), outcomes)
    ensures ExistingKept(old(dir.entries), dir.entries)
    ensures CreatedExactly(old(dir.entries), dir.entries, created)
    ensures AllProvisioned(cfg, dir.entries, created)
    ensures AboveStartUids(old(dir.entries), dir.entries, created)
    ensures IncreasingUids(dir.entries, created)
    ensures UidsDistinct(old(dir.entries)) ==> UidsDistinct(dir.entries)
  {
    created, outcomes, states := [], [], [dir.entries];
    NothingChanged(cfg, dir.entries);
    var found := dir.Search(cfg.baseDnL, cfg.userFltrL);
    ldapUsers := found;
    if !(Truthy(adUsers) || Truthy(found)) {
      return Exit2, ldapUsers, outcomes, created, states;
    }
    if found.None? {
      return Aborted, ldapUsers, outcomes, created, states;
    }
    var index := UidIndex(found.value);
    if index.None? {
      return Aborted, ldapUsers, outcomes, created, states;
    }
    if adUsers.None? {
      return Aborted, ldapUsers, outcomes, created, states;
    }
    var byDn := DnIndex(found.value);
    DnIndexOfSearch(found.value, dir.entries);
    result, outcomes, created, states := SyncAll(dir, cfg, index.value, byDn, adUsers.value);
  }
}
