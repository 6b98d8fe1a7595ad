# AD to OpenLDAP account sync, modelled in Dafny

`AD-ldap_sync.py` copies user accounts from an Active Directory server
into an OpenLDAP directory. It makes one pass. First it reads the AD
accounts and the OpenLDAP accounts. Then it indexes the OpenLDAP accounts
by `uid`, and handles each AD account in turn:

- it skips the account if it is excluded or has no `division`. The
  `division` attribute holds the hex SHA-1 password digest.
- it refreshes `userPassword` and `sambaPwdLastSet` when the account is
  known and its converted `pwdLastSet` is newer by more than one second;
- it creates the account from the `user_tpl` template when it is unknown.
  The new account gets the `uidNumber` one above the largest one that
  `getlastuid`'s fixed scan of the directory finds at that moment.

The project has six modules:

- `Wrappers`: `Option`.
- `PyText`: the Python 2 string operations the script uses. These are
  `int()`/`long()` on a `str`, `str()` on an integer, and `rstrip()`.
- `Codec`: `sha1hex2ldap` and `ft2ut`, together with the codecs they rest
  on:
  - Base16 (section 8 of RFC 4648);
  - Base64 (section 4 of RFC 4648);
  - Python 2's `encode('base64')`, which writes 57 bytes per line with a
    newline after each (section 6.8 of RFC 2045).
- `Directory`: the OpenLDAP server as the script reaches it through
  `LdapCon`. The class `TargetDirectory` holds `map<DN, map<Attr,
  seq<string>>>`. Its methods are:
  - `Search`: a subtree search with an RFC 4515 filter.
  - `Modify` and `Add`: the server may refuse either one. A refused
    request changes nothing.
- `Allocator`: `getlastuid`.
- `Sync`: the pass itself, split into three layers:
  - `Decide`: what to do with one AD account.
  - `FillProfile`: the profile loop.
  - `CreateAccount`, `ProcessAccount` and `SyncAccount`: the loop body.
  - `SyncAll`: the loop over the AD accounts (lines 114-167).
  - `Run`: the whole pass (lines 105-167).

A Python exception is an outcome in this model, not a precondition. The
exceptions are:

- `KeyError` on a missing attribute;
- `IndexError` from `[0]` on an attribute with no values
  (`Directory.First`);
- `ValueError` from `int()`;
- `TypeError` from `decode('hex')` or from iterating `False`.

When the AD account itself raises, `Decide` yields `Crash`. Inside
`getlastuid`, a scanned entry with a missing or non-numeric uidNumber
raises; that crash is the outcome `Crashed` of `CreateAccount`, not a
decision. Either way `Run` ends with `Aborted`, as the script does.

The template is aliased: `attrs = user_tpl` writes into `user_tpl` itself,
so each create sees what earlier ones left behind. The model keeps that
behaviour, carrying the template dict from one iteration to the next.
`Sync.TemplateAliasingIsBenign` proves that every account is nevertheless
built as if from a fresh copy of `user_tpl`.

On the update threshold, line 128 tests `pwdLS > int(stored) + 1`. With a
stored 1000, a converted 1001 sends nothing and a converted 1002 is
written (`Sync.ToleranceExample`).

The loop invariant of `Sync.SyncAll` is `Sync.Walked`. It is
`Sync.Progress` plus the facts on crashes that `Sync.PassOutcomes` states
when the loop ends.
`Sync.Progress` has two parts.

The first part is `Sync.PassInvariant`. From it, the pass ends with these
properties:

- No entry is deleted.
- An existing entry is either untouched or has had exactly
  `userPassword` and `sambaPwdLastSet` replaced, with a timestamp that
  moved forward by more than the tolerance.
- The added entries are exactly the ones in the ghost list `created`.
- Each added entry has the shape of a created account.
- Each added `uidNumber` is above every `uidNumber` the scan saw before
  the pass.
- An account added later has a larger `uidNumber` than an earlier one
  the scan sees.
- Scanned `uidNumber`s that were distinct stay distinct.

The second part is `Sync.Explained`. It ties every change to the AD
account behind it:

- The outcome of each account fits the decision `Sync.Decide` takes for
  it.
- Every existing entry that changed is `start[dn]` plus
  `PasswordChanges(hash, stamp)` of the refresh of some account whose
  modify the server took.
- Every added entry is `NewAccount(user_tpl, au, uid, stamp, hash,
  uidNumber)` built from the AD attributes `au` of the account whose
  create produced it. It sits at `dn_prod % uid`.

One crashing account ends the pass: `Sync.SyncAll` and `Sync.Run` end
with `Aborted` only after an account whose outcome is `Crashed`. That
account's crash has a cause the script has (`Sync.AbortCause`): either
its decision is `Crash`, or it is a create and the target, as the pass
left it, holds a scanned entry with a missing or non-numeric uidNumber.
`Sync.PassOutcomes` states these facts.

The pass also keeps a ghost trace `states` of the target: the target
before each handled account, then after the last one. `Sync.Traced`
says that account `i` took `states[i]` to `states[i + 1]` exactly as
`StepEffect` says for its decision and outcome. An accepted modify or add
is therefore in the target from then on. An add carries `getlastuid() +
1` of the target as the step found it. The trace starts at the target
before the loop and ends at the final target. Before the loop, `Run` ends with
`Aborted` only on a failed target search, an `ldap_accs` that cannot be
built, or a failed AD search. A refused modify or add, a missing profile
or a falsy `getlastuid` does not stop the loop.

The uidNumbers are increasing only for entries the scan of `getlastuid`
sees. That scan is fixed: base `dc=domain,dc=loc`, filter
`(&(objectClass=posixAccount)(uidNumber=*))`. If `dn_prod` puts accounts
outside that base, or `user_tpl` lacks `objectClass: posixAccount`, an
added account is invisible to the next scan. The next account created in
the same pass then gets the same uidNumber
(`Allocator.AddOutsideScanKeepsLastUid`).

## Model

| member | source | states |
|---|---|---|
| PyText.ParseIntToString | AD-ldap_sync.py:128 | `int(str(n)) == n`: a timestamp or uidNumber the script writes reads back as the same number |
| PyText.ParseInt | AD-ldap_sync.py:128 | `int()`/`long()` accepts a run of decimal digits, or one after a single sign, and only those (a lone sign is rejected); the value is negative only after a `-` |
| PyText.IntToString | AD-ldap_sync.py:134 | `str()` of an integer is non-empty, starts with `-` exactly for a negative number, and is otherwise decimal digits |
| PyText.RStrip | AD-ldap_sync.py:92 | `rstrip()` gives a prefix of its input that does not end in whitespace, and everything it removed is whitespace |
| Codec.HexDecode | AD-ldap_sync.py:92 | a successful `decode('hex')` yields half as many bytes as the text has digits |
| Codec.HexDecodeDomain | AD-ldap_sync.py:92 | `decode('hex')` succeeds exactly on text of even length made only of hex digits |
| Codec.HexRoundTrip | AD-ldap_sync.py:92 | hex-decoding the hex text of any byte string gives those bytes back |
| Codec.Base64Encode | AD-ldap_sync.py:92 | Base64 yields four characters per three bytes, rounded up |
| Codec.Base64EncodeText | AD-ldap_sync.py:92 | Base64 output has only characters of the alphabet and the pad |
| Codec.GroupRoundTrip | AD-ldap_sync.py:92 | the four sextets of three bytes decode to those three bytes |
| Codec.OneByteRoundTrip | AD-ldap_sync.py:92 | a one-byte input decodes back through its "==" padding |
| Codec.TwoBytesRoundTrip | AD-ldap_sync.py:92 | a two-byte input decodes back through its "=" padding |
| Codec.Base64RoundTrip | AD-ldap_sync.py:92 | Base64 decoding inverts Base64 encoding for every byte string |
| Codec.Base64Concat | AD-ldap_sync.py:92 | encoding splits at any multiple of three bytes |
| Codec.EncodeString | AD-ldap_sync.py:92 | `encode('base64')` gives the Base64 characters plus one newline per started 57-byte chunk, and ends in a newline for non-empty input |
| Codec.EncodeStringIsWrapped | AD-ldap_sync.py:92 | `encode('base64')` of non-empty input is its wrapped lines plus one final newline, before which comes a Base64 character |
| Codec.UnwrapBase64 | AD-ldap_sync.py:92 | the line breaks are all that `encode('base64')` adds to plain Base64 |
| Codec.StripEncodeString | AD-ldap_sync.py:90-92 | `rstrip()` removes exactly the final newline of `encode('base64')` |
| Codec.Sha1Hex2Ldap | AD-ldap_sync.py:87-95 | `sha1hex2ldap` succeeds exactly when `division` is valid hex (it raises otherwise) |
| Codec.Sha1Hex2LdapRoundTrip | AD-ldap_sync.py:87-95 | removing `{SHA}` and Base64-decoding the value gives back exactly the digest bytes hex-decoded from `division` |
| Codec.Sha1Hex2LdapOneLine | AD-ldap_sync.py:92 | for a digest of at most 57 bytes the value is `{SHA}` plus plain Base64, with no line break |
| Codec.Sha1Hex2LdapLength | AD-ldap_sync.py:87-95 | a 40-digit SHA-1 hex digest gives a 33-character value |
| Codec.Ft2Ut | AD-ldap_sync.py:97-101 | `ft2ut(ft)` is the Unix second in which FILETIME tick `ft` falls, i.e. the floor of `(ft - 116444736000000000) / 10^7` |
| Codec.Ft2UtOfUt2Ft | AD-ldap_sync.py:100 | converting the first tick of second `ut` gives `ut` |
| Codec.Ut2FtOfFt2Ut | AD-ldap_sync.py:100 | `ft` lies between the start of its converted second and the start of the next one |
| Codec.Ft2UtMonotone | AD-ldap_sync.py:100 | `ft2ut` is monotone |
| Codec.Ft2UtNonNegative | AD-ldap_sync.py:100 | `ft2ut` is non-negative from the Unix epoch on |
| Codec.Ft2UtSteps | AD-ldap_sync.py:97-101 | the Unix epoch maps to 0 and every further 10^7 ticks add exactly one second |
| Directory.EmptySearchResult | AD-ldap_sync.py:78 | a search answer is empty, so falsy, exactly when no entry is selected |
| Directory.First | AD-ldap_sync.py:79 | `attrs[a][0]` raises exactly when `a` is missing or has no values, and otherwise reads one of the values of `a` |
| Directory.FirstAfterWrite | AD-ldap_sync.py:145-156 | after `attrs[b] = vs`, reading `b` gives `vs[0]` and reading any other attribute gives what it gave before |
| Directory.SearchStep | AD-ldap_sync.py:41 | moving one selected entry into the answer keeps the search complete and free of duplicates |
| Directory.TargetDirectory.Search | AD-ldap_sync.py:37-44 | `False` without a connection; otherwise every entry under the base that matches the filter, exactly once, with its attributes |
| Directory.TargetDirectory.Modify | AD-ldap_sync.py:46-57 | an accepted modify replaces the named attributes of an existing entry and nothing else; a refused one changes nothing |
| Directory.TargetDirectory.Add | AD-ldap_sync.py:59-70 | an accepted add creates a new entry with exactly the given attributes; a refused one changes nothing |
| Allocator.LastOf | AD-ldap_sync.py:79-80 | `sorted([int(...)])[-1]`: the numeric maximum of the uidNumbers; a crash exactly when one is missing or not a number; `False` only for no entries |
| Allocator.GetLastUid | AD-ldap_sync.py:74-84 | `getlastuid` returns the largest scanned uidNumber, or crashes only when a scanned entry has a bad uidNumber, and returns `False` when nothing is scanned |
| Allocator.UidNumberReadsBack | AD-ldap_sync.py:156 | the written `[str(uidn + 1)]` reads back as `uidn + 1` |
| Allocator.NextUidIsFree | AD-ldap_sync.py:154-156 | `last + 1` is strictly above every scanned uidNumber, so no scanned entry holds it |
| Allocator.AddRaisesLastUid | AD-ldap_sync.py:154-159 | after an add with `last + 1` that the scan sees, the next scan answers `last + 1` |
| Allocator.AddKeepsUidsDistinct | AD-ldap_sync.py:154-159 | adding an entry with `last + 1` keeps the scanned uidNumbers distinct |
| Allocator.AddOutsideScanKeepsLastUid | AD-ldap_sync.py:74-80 | an added entry that the fixed scan does not select leaves `getlastuid` unchanged, so the next create is handed the same uidNumber |
| Allocator.ScanReadsUidAttrs | AD-ldap_sync.py:74 | the scan reads only objectClass and uidNumber |
| Allocator.ScanAfterUpdate | AD-ldap_sync.py:74-79 | rewriting attributes other than objectClass and uidNumber leaves the scan unchanged |
| Allocator.SameScanKeepsDistinct | AD-ldap_sync.py:79 | distinctness of scanned uidNumbers depends only on what the scan sees |
| Allocator.LastOfExample | AD-ldap_sync.py:79 | uidNumbers 5, 9, 3 give 9, and "9", "10" give 10: the comparison is numeric |
| Sync.DnForInjective | AD-ldap_sync.py:127 | `dn_prod % uid` gives different DNs for different uids |
| Sync.DnFor | AD-ldap_sync.py:127 | `dn_prod % uid` holds `uid` between the two halves of the pattern, so the uid can be read back from the DN |
| Sync.UidIndex | AD-ldap_sync.py:112 | `ldap_accs` is built exactly when every target entry has `uid` and `sambaPwdLastSet` |
| Sync.UidIndexKeys | AD-ldap_sync.py:112 | the uids in `ldap_accs` are exactly those of the target entries |
| Sync.DnIndex | AD-ldap_sync.py:127 | the DNs of `dict(LDAPusers)` are exactly those of the result |
| Sync.DnIndexOfSearch | AD-ldap_sync.py:127 | over a search answer, `dict(LDAPusers)` maps each DN to the directory's own entry |
| Sync.TruthyOfSearch | AD-ldap_sync.py:106-109 | the target answer is truthy exactly when the search selects some entry, and a failed search is falsy |
| Sync.Decide | AD-ldap_sync.py:114-153 | an account without `sAMAccountName` raises; an account that is neither skipped nor crashing is named, not excluded, has `division`, and takes the update path exactly when its uid is in `ldap_accs` |
| Sync.DecideKnown | AD-ldap_sync.py:126-134 | the update path ends in a crash, nothing or a refresh; it raises exactly on a missing or bad `pwdLastSet`, a missing entry at `dn_prod % uid`, a missing or bad stored `sambaPwdLastSet`, or, once an update is due, a missing stored `userPassword` or a non-hex `division`; a refresh targets `dn_prod % uid` with the converted `pwdLastSet` and the encoded `division` |
| Sync.DecideNew | AD-ldap_sync.py:142-153 | the create path stops without an add exactly when a profile attribute is missing; with the profile complete it raises exactly on a bad `pwdLastSet` or `division`, and otherwise creates that uid with the encoded `division` |
| Sync.PasswordChanges | AD-ldap_sync.py:133-134 | the refresh sends exactly `userPassword` and `sambaPwdLastSet`: the hash as the only password, and a timestamp that reads back as the number written |
| Sync.SkipIff | AD-ldap_sync.py:116-120 | an account is skipped exactly when it is excluded or has no `division` |
| Sync.RefreshIff | AD-ldap_sync.py:124-128 | a known, well-formed account is refreshed exactly when the converted `pwdLastSet` exceeds the stored value plus 1; otherwise nothing is sent |
| Sync.ToleranceExample | AD-ldap_sync.py:128 | against a stored 1000, 1001 sends nothing and 1002 sends the refresh |
| Sync.RefreshFacts | AD-ldap_sync.py:126-134 | a refresh targets `dn_prod % uid`, carries a timestamp past the stored one by more than 1, and a `{SHA}` value that decodes to the digest in `division` |
| Sync.CreateFacts | AD-ldap_sync.py:140-153 | a create is for an unknown, non-excluded uid with a complete profile, and carries a `{SHA}` value decoding to the digest in `division` |
| Sync.CreateIff | AD-ldap_sync.py:140-153 | for a new, non-excluded uid with `division`, a missing profile attribute means no add; the account is created exactly when the profile is complete and `pwdLastSet` and `division` convert, with the converted values; otherwise it crashes |
| Sync.ProfilePresent | AD-ldap_sync.py:144 | the five profile attributes are all present exactly when each one in the loop's order is |
| Sync.ProfileFilledUnfold | AD-ldap_sync.py:144-147 | the filled template is the five profile copies, then `homeDirectory`, then `homePhone` |
| Sync.FillProfile | AD-ldap_sync.py:143-150 | the loop completes exactly when all five profile attributes are present; when it stops early, the attributes copied before the missing one stay; it writes only create-path attributes |
| Sync.TemplateAliasingIsBenign | AD-ldap_sync.py:142-156 | a template that earlier creates wrote into builds the same entry as a fresh `user_tpl` |
| Sync.NewAccountKeys | AD-ldap_sync.py:142-156 | the new entry holds the attributes of `user_tpl` and, besides them, exactly the eleven the create path writes |
| Sync.NewAccountNamed | AD-ldap_sync.py:146-159 | the new entry has `uid = [uid]`, lives at `dn_prod % uid` and has `homeDirectory = ["/home/uid"]` |
| Sync.NewAccountProfiled | AD-ldap_sync.py:144-147 | the new entry carries the five profile attributes from AD, and `homePhone` equals `telephoneNumber` |
| Sync.NewAccountCredentialed | AD-ldap_sync.py:151-156 | the new entry has the given `{SHA}` password, and its `sambaPwdLastSet` and `uidNumber` read back as the converted timestamp and the allocated number |
| Sync.NewAccountFromTemplate | AD-ldap_sync.py:142 | outside the attributes the create path writes, the new entry equals `user_tpl` |
| Sync.NewAccountProvisioned | AD-ldap_sync.py:141-158 | the new entry has the provisioned shape, and its uidNumber is the allocated one |
| Sync.RefreshWrites | AD-ldap_sync.py:130-136 | a refresh replaces `userPassword` and `sambaPwdLastSet` and nothing else, and the new timestamp reads back as written |
| Sync.RefreshKeepsExisting | AD-ldap_sync.py:128-137 | after a refresh, every pre-existing entry is still untouched or password-refreshed |
| Sync.UpdateKeepsCreated | AD-ldap_sync.py:137 | rewriting a pre-existing entry leaves the added entries as they were |
| Sync.UpdateKeepsIncreasing | AD-ldap_sync.py:137 | rewriting a pre-existing entry without changing what the scan sees keeps later-added uidNumbers increasing |
| Sync.PassInvariantRefresh | AD-ldap_sync.py:124-139 | an accepted refresh keeps the pass invariant |
| Sync.StartScanPersists | AD-ldap_sync.py:154 | every entry scanned before the pass is still scanned, with its uidNumber |
| Sync.StartUidAtMostLast | AD-ldap_sync.py:154 | every uidNumber scanned before the pass is at most the current `getlastuid` |
| Sync.AddKeepsAboveStart | AD-ldap_sync.py:154-159 | an add with `last + 1` keeps every added uidNumber above those scanned before the pass |
| Sync.AddKeepsIncreasing | AD-ldap_sync.py:154-159 | an add with `last + 1` gets a larger uidNumber than every earlier added entry the scan sees |
| Sync.AddKeepsCreated | AD-ldap_sync.py:159 | an add of a new DN keeps the pre-existing entries and records the DN in `created` |
| Sync.AddKeepsProvisioned | AD-ldap_sync.py:159 | adding a provisioned entry keeps every added entry provisioned |
| Sync.PassInvariantAdd | AD-ldap_sync.py:154-164 | an accepted add of a provisioned entry with `last + 1` keeps the pass invariant |
| Sync.StepOutcome | AD-ldap_sync.py:114-167 | the outcome of an iteration fits its decision, and nothing changes unless a modify or an add was accepted |
| Sync.RefreshStepKeepsInvariant | AD-ldap_sync.py:124-139 | an iteration whose refresh the server took keeps the pass invariant |
| Sync.CreateStepKeepsInvariant | AD-ldap_sync.py:140-164 | an iteration whose add the server took keeps the pass invariant, with the new DN recorded in `created` |
| Sync.StepKeepsInvariant | AD-ldap_sync.py:114-167 | every iteration keeps the pass invariant |
| Sync.Decisions | AD-ldap_sync.py:114 | one decision per AD account |
| Sync.DecisionAt | AD-ldap_sync.py:114 | the decisions follow the loop order: the k-th is the one `Decide` takes for the k-th AD account |
| Sync.PasswordChangesTwice | AD-ldap_sync.py:136-137 | a second refresh of an entry overwrites the first one completely |
| Sync.ChangesRefreshedStep | AD-ldap_sync.py:128-137 | the entry a refresh rewrites is explained by that refresh, and every other changed entry as before |
| Sync.ExplainedRefresh | AD-ldap_sync.py:124-139 | an accepted modify for the next account's refresh keeps every change explained |
| Sync.AddsExplainedStep | AD-ldap_sync.py:154-159 | the entry an add creates is the `NewAccount` of the account whose create sent it, and earlier adds stay explained |
| Sync.ExplainedAdd | AD-ldap_sync.py:140-164 | an accepted add for the next account's create keeps every change explained |
| Sync.StepExplained | AD-ldap_sync.py:114-167 | every iteration keeps every change explained by the account behind it |
| Sync.CreateAccount | AD-ldap_sync.py:141-167 | the create path crashes only when a scanned entry has a bad uidNumber, changes nothing when `getlastuid` is falsy, and otherwise adds, at a DN not yet taken, exactly `NewAccount(user_tpl, au, uid, stamp, hash, last + 1)` with `last` the scan's maximum, or changes nothing when the server refuses; the template stays intact outside the create attributes |
| Sync.ProcessAccount | AD-ldap_sync.py:114-167 | one iteration does exactly what the account's decision says: nothing for a crash, a skip, a current password or a missing profile; `before[dn] + PasswordChanges(hash, stamp)` at `dn_prod % uid` for a refresh the server takes; the create path's effect for a new account; nothing on a refused request |
| Sync.CrashHasCause | AD-ldap_sync.py:114-167 | an iteration that crashes changes nothing, and either the account raises (`Crash`) or it is a create whose `getlastuid` meets a scanned entry with a missing or non-numeric uidNumber |
| Sync.SyncAccount | AD-ldap_sync.py:114-167 | one iteration has the effect `ProcessAccount` states and an outcome that fits the decision; it keeps the pass invariant and the template intact, keeps every change explained by the account behind it, and a crash has a cause the script has |
| Sync.PassEnds | AD-ldap_sync.py:114-167 | a loop that stopped at its first crash, or after the last account, ends `Aborted` or `Completed` as `PassOutcomes` says |
| Sync.TracedStep | AD-ldap_sync.py:114-167 | one more iteration extends the trace of the pass by its own step |
| Sync.SyncAll | AD-ldap_sync.py:114-167 | the trace of target states runs from the target before the loop to the final one, each step doing what `StepEffect` says for its account, so an accepted modify or add lands and an add carries `getlastuid() + 1` as it stood then; the loop walks every account unless one crashes, and then stops right after it, at an account that raises or a create whose `getlastuid` meets a bad scanned uidNumber; each outcome fits its decision; every changed entry is the refresh of some account, every added entry is the `NewAccount` of the account that created it; the pass invariant holds at the end |
| Sync.Run | AD-ldap_sync.py:105-167 | exits with 2 exactly when both searches are falsy; short of the loop (a failed target search, an `ldap_accs` that cannot be built, a failed AD search) it aborts and changes nothing; in the loop, each account's step is traced as in `SyncAll`, from the starting target to the final one; it aborts only at a crashing account, one that raises or a create whose `getlastuid` meets a bad scanned uidNumber, and otherwise walks every account; every changed entry is the refresh of some account and every added entry is the `NewAccount` built from the AD account that created it; no entry is deleted; added accounts are provisioned, with uidNumbers above the starting ones and, for entries the scan sees, increasing in order of creation; scanned uidNumbers stay distinct |

## Left out

- Connection setup, bind and `unbind` in `LdapCon`
  (AD-ldap_sync.py:18-35) are network I/O. A refused or failed modify or
  add is a nondeterministic `false`. A search without a connection is a
  nondeterministic `None`.
- A `search_s` that raises, such as for a missing base DN or an
  unreachable server, is not modelled: `LdapCon.search` does not catch
  it. In the model a search either answers or gives `None`.
- `Directory.TargetDirectory.Search` answers with every attribute of each
  entry. The target search on line 106 binds anonymously
  (`LdapCon(server_l)`). Under the usual OpenLDAP access rules an
  anonymous reader does not see `userPassword`. Then line 130's
  `ldap_acc['userPassword']` raises `KeyError` on every due refresh. The
  model does not cover access rules, so it takes that path only for an
  entry that really lacks `userPassword`.
- The search of Active Directory on line 105 is a parameter of `Sync.Run`,
  since it reads another server. `None` stands for `False`.
- Referral entries in an Active Directory answer are not modelled. Only
  `(dn, attrs)` pairs are.
- `print` diagnostics are left out. `sys.exit(2)` is the result `Exit2`.
- The `ldap.modlist` functions come from a foreign library, so only their
  effect is modelled:
  - `modifyModlist(old, new)` replaces the attributes named in `new`;
  - `addModlist(attrs)` creates the entry with `attrs`.
- `addModlist` also drops empty values. That is not modelled. An entry
  the pass adds takes its profile values from an AD search result, which
  carries no empty values. The values the create path computes are
  one-element lists. The rest comes from `user_tpl`, whose values the
  model assumes to be non-empty.
- `from config import *`: `exclude_dn`, `dn_prod`, `user_tpl`, `base_dn_l`
  and `user_fltr_l` are the fields of `Sync.Config`:
  - `dn_prod` is kept as the text around its single `%s`;
  - the server names and bind credentials are not modelled, since they
    only serve the connection.
- DN and filter matching are case-sensitive and exact. A real LDAP server
  compares most attributes case-insensitively and normalises DNs.
- PyText.ParseInt: Python's `int()` and `long()` also accept surrounding
  whitespace, and `long()` on line 100 also accepts a trailing `L` or
  `l`. `PyText.ParseInt` rejects both, so such a `pwdLastSet` is a crash
  in the model.
- UidIndex: states which uids `ldap_accs` holds, but not that a later
  entry's `sambaPwdLastSet` wins for a duplicated uid. The loop never
  reads those values; it only tests membership on line 124.
