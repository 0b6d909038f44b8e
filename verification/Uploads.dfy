/**
 * Artifacts (packages/reporter/src/artifact-uploader.ts and promoteSnapshotTriples of
 * packages/reporter/src/index.ts): grouping snapshot images, matching collected files to the server's
 * test rows, and registering and uploading them with the one retry after a 413.
 */
module Uploads {
  import opened Prelude
  import opened Decimal

  datatype Role = Expected | Actual | Diff

  datatype Kind = Trace | Screenshot | Video | Visual | Other

  datatype Artifact = Artifact(
    kind: Kind,
    name: string,
    contentType: string,
    sizeBytes: nat,
    localPath: string,
    attempt: int,
    role: Option<Role>,
    snapshotName: Option<string>)

  // ----- Snapshot triples -----

  /** An absent or empty snapshot name, or an absent role, makes a plain artifact. */
  predicate Tentative(a: Artifact) {
    a.snapshotName.Some? && a.snapshotName.value != "" && a.role.Some?
  }

  function GroupKey(a: Artifact): string
    requires Tentative(a)
  {
    IntText(a.attempt) + "::" + a.snapshotName.value
  }

  predicate SameGroup(a: Artifact, b: Artifact) {
    Tentative(a) && Tentative(b) && a.attempt == b.attempt && a.snapshotName == b.snapshotName
  }

  /** The textual key never merges two groups, whatever the snapshot names contain. */
  lemma GroupKeyIdentifies(a: Artifact, b: Artifact)
    requires Tentative(a) && Tentative(b)
    ensures GroupKey(a) == GroupKey(b) <==> SameGroup(a, b)
  {
    if GroupKey(a) == GroupKey(b) {
      var s, t, k := IntText(a.attempt), IntText(b.attempt), GroupKey(a);
      assert k[|s|] == ':' && k[|t|] == ':';
      assert forall i :: 0 <= i < |s| ==> k[i] == s[i] && k[i] != ':';
      assert forall i :: 0 <= i < |t| ==> k[i] == t[i] && k[i] != ':';
      assert |s| == |t| && s == k[..|s|] == t;
      IntTextInjective(a.attempt, b.attempt);
      assert a.snapshotName.value == k[|s| + 2..] == b.snapshotName.value;
    }
  }

  /** Some artifact of the group of `a` plays this role. */
  predicate Plays(artifacts: seq<Artifact>, a: Artifact, role: Role) {
    exists b :: b in artifacts && SameGroup(a, b) && b.role.value == role
  }

  predicate CompleteGroup(artifacts: seq<Artifact>, a: Artifact) {
    Plays(artifacts, a, Expected) && Plays(artifacts, a, Actual) && Plays(artifacts, a, Diff)
  }

  /** What becomes of one artifact: visual with its siblings, else a plain screenshot. */
  function Promoted(artifacts: seq<Artifact>, a: Artifact): Artifact {
    if !Tentative(a) then a
    else if CompleteGroup(artifacts, a) then a.(kind := Visual)
    else a.(kind := Screenshot, role := None, snapshotName := None)
  }

  /** The map of sets holds the roles each group plays. */
  ghost predicate RolesCounted(counts: map<string, set<Role>>, seen: seq<Artifact>) {
    && (forall b :: b in seen && Tentative(b) ==> GroupKey(b) in counts && b.role.value in counts[GroupKey(b)])
    && (forall key, role :: key in counts && role in counts[key] ==>
          exists b :: b in seen && Tentative(b) && GroupKey(b) == key && b.role.value == role)
  }

  /** The first loop: which roles each group plays. */
  method CountRoles(artifacts: seq<Artifact>) returns (counts: map<string, set<Role>>)
    ensures RolesCounted(counts, artifacts)
  {
    hide GroupKey, RolesCounted;
    NothingCounted();
    counts := map[];
    for i := 0 to |artifacts|
      invariant RolesCounted(counts, artifacts[..i])
    {
      var a := artifacts[i];
      assert artifacts[..i] + [a] == artifacts[..i + 1];
      if !Tentative(a) {
        CountNone(counts, artifacts[..i], a);
        continue;
      }
      var key := GroupKey(a);
      var roles := if key in counts then counts[key] else {};
      CountOne(counts, artifacts[..i], a);
      counts := counts[key := roles + {a.role.value}];
    }
    assert artifacts[..|artifacts|] == artifacts;
  }

  lemma NothingCounted()
    ensures RolesCounted(map[], [])
  {
  }

  method PromoteSnapshotTriples(artifacts: seq<Artifact>) returns (r: seq<Artifact>)
    ensures |r| == |artifacts|
    ensures forall i :: 0 <= i < |r| ==> r[i] == Promoted(artifacts, artifacts[i])
  {
    hide GroupKey, RolesCounted, Plays;
    var counts := CountRoles(artifacts);
    r := [];
    for i := 0 to |artifacts|
      invariant |r| == i && forall j :: 0 <= j < i ==> r[j] == Promoted(artifacts, artifacts[j])
    {
      var a := artifacts[i];
      if !Tentative(a) {
        r := r + [a];
      } else {
        var key := GroupKey(a);
        CountsDecide(counts, artifacts, a);
        var complete := key in counts && Expected in counts[key] && Actual in counts[key] && Diff in counts[key];
        r := r + [if complete then a.(kind := Visual) else a.(kind := Screenshot, role := None, snapshotName := None)];
      }
    }
  }

  lemma CountOne(counts: map<string, set<Role>>, seen: seq<Artifact>, a: Artifact)
    requires RolesCounted(counts, seen) && Tentative(a)
    ensures var roles := if GroupKey(a) in counts then counts[GroupKey(a)] else {};
            RolesCounted(counts[GroupKey(a) := roles + {a.role.value}], seen + [a])
  {
    hide GroupKey;
    var roles := if GroupKey(a) in counts then counts[GroupKey(a)] else {};
    var after := counts[GroupKey(a) := roles + {a.role.value}];
    assert a in seen + [a];
    forall key, role | key in after && role in after[key]
      ensures exists b :: b in seen + [a] && Tentative(b) && GroupKey(b) == key && b.role.value == role
    {
      if !(key == GroupKey(a) && role == a.role.value) {
        var b :| b in seen && Tentative(b) && GroupKey(b) == key && b.role.value == role;
        assert b in seen + [a];
      }
    }
  }

  lemma CountNone(counts: map<string, set<Role>>, seen: seq<Artifact>, a: Artifact)
    requires RolesCounted(counts, seen) && !Tentative(a)
    ensures RolesCounted(counts, seen + [a])
  {
    hide GroupKey;
    forall key, role | key in counts && role in counts[key]
      ensures exists b :: b in seen + [a] && Tentative(b) && GroupKey(b) == key && b.role.value == role
    {
      var b :| b in seen && Tentative(b) && GroupKey(b) == key && b.role.value == role;
      assert b in seen + [a];
    }
  }

  lemma CountsDecide(counts: map<string, set<Role>>, artifacts: seq<Artifact>, a: Artifact)
    requires RolesCounted(counts, artifacts) && Tentative(a)
    ensures forall role :: Plays(artifacts, a, role) <==> GroupKey(a) in counts && role in counts[GroupKey(a)]
  {
    hide GroupKey;
    forall role ensures Plays(artifacts, a, role) <==> GroupKey(a) in counts && role in counts[GroupKey(a)] {
      if Plays(artifacts, a, role) {
        var b :| b in artifacts && SameGroup(a, b) && b.role.value == role;
        GroupKeyIdentifies(a, b);
      }
      if GroupKey(a) in counts && role in counts[GroupKey(a)] {
        var b :| b in artifacts && Tentative(b) && GroupKey(b) == GroupKey(a) && b.role.value == role;
        GroupKeyIdentifies(a, b);
      }
    }
  }

  /** An image becomes visual exactly if all three roles of its attempt and name are there, and else a screenshot. */
  lemma PromotedExactly(artifacts: seq<Artifact>, a: Artifact)
    ensures var p := Promoted(artifacts, a);
            && p.name == a.name && p.contentType == a.contentType && p.sizeBytes == a.sizeBytes
            && p.localPath == a.localPath && p.attempt == a.attempt
    ensures a.snapshotName.None? || a.snapshotName.value == "" || a.role.None? ==> Promoted(artifacts, a) == a
    ensures var p := Promoted(artifacts, a);
            a.snapshotName.Some? && a.snapshotName.value != "" && a.role.Some? ==>
              if forall role: Role :: exists b :: b in artifacts && b.attempt == a.attempt
                                                  && b.snapshotName == a.snapshotName && b.role == Some(role) then
                p.kind == Visual && p.role == a.role && p.snapshotName == a.snapshotName
              else
                p.kind == Screenshot && p.role == None && p.snapshotName == None
  {
    if Tentative(a) {
      forall role: Role
        ensures Plays(artifacts, a, role) <==>
                exists b :: b in artifacts && b.attempt == a.attempt && b.snapshotName == a.snapshotName
                            && b.role == Some(role)
      {
        if exists b :: b in artifacts && b.attempt == a.attempt && b.snapshotName == a.snapshotName
                       && b.role == Some(role) {
          var b :| b in artifacts && b.attempt == a.attempt && b.snapshotName == a.snapshotName && b.role == Some(role);
          assert SameGroup(a, b);
        }
      }
    }
  }

  /** A promoted list is left alone: complete triples stay, and what was demoted is no longer tentative. */
  lemma PromoteIdempotent(artifacts: seq<Artifact>, r: seq<Artifact>, i: nat)
    requires |r| == |artifacts| && i < |r|
    requires forall j :: 0 <= j < |r| ==> r[j] == Promoted(artifacts, artifacts[j])
    ensures Promoted(r, r[i]) == r[i]
  {
    var a := artifacts[i];
    if Tentative(r[i]) {
      assert r[i] == a.(kind := Visual) && CompleteGroup(artifacts, a);
      forall role | Plays(artifacts, a, role) ensures Plays(r, r[i], role) {
        var b :| b in artifacts && SameGroup(a, b) && b.role.value == role;
        var j :| 0 <= j < |artifacts| && artifacts[j] == b;
        SiblingsComplete(artifacts, a, b);
        assert r[j] in r && SameGroup(r[i], r[j]) && r[j].role.value == role;
      }
    }
  }

  lemma SiblingsComplete(artifacts: seq<Artifact>, a: Artifact, b: Artifact)
    requires SameGroup(a, b) && CompleteGroup(artifacts, a)
    ensures CompleteGroup(artifacts, b)
  {
    forall role | Plays(artifacts, a, role) ensures Plays(artifacts, b, role) {
      var c :| c in artifacts && SameGroup(a, c) && c.role.value == role;
      assert SameGroup(b, c);
    }
  }

  // ----- Correlation -----

  datatype Registration = Registration(
    testResultId: string,
    kind: Kind,
    name: string,
    contentType: string,
    sizeBytes: nat,
    attempt: int,
    role: Option<Role>,
    snapshotName: Option<string>)

  datatype BatchEntry = BatchEntry(clientKey: string, artifacts: seq<Artifact>)

  datatype ResultMapping = ResultMapping(clientKey: string, testResultId: string)

  /** The row of a client key: the last one mapped, if its id is not empty. */
  function Lookup(mapping: seq<ResultMapping>, key: string): Option<string> {
    if mapping == [] then None
    else
      var last := mapping[|mapping| - 1];
      if last.clientKey != key then Lookup(mapping[..|mapping| - 1], key)
      else if last.testResultId == "" then None
      else Some(last.testResultId)
  }

  /** Entry `m` of the mapping is the last one for this key. */
  predicate LastMapped(mapping: seq<ResultMapping>, key: string, m: nat) {
    m < |mapping| && mapping[m].clientKey == key && forall n :: m < n < |mapping| ==> mapping[n].clientKey != key
  }

  lemma {:induction false} LookupNothing(mapping: seq<ResultMapping>, key: string)
    requires forall n :: 0 <= n < |mapping| ==> mapping[n].clientKey != key
    ensures Lookup(mapping, key) == None
    decreases |mapping|
  {
    if mapping != [] {
      LookupNothing(mapping[..|mapping| - 1], key);
    }
  }

  /** A key's row is what its last entry in the mapping says, if that is not empty. */
  lemma {:induction false} LookupMeans(mapping: seq<ResultMapping>, key: string, m: nat)
    requires LastMapped(mapping, key, m)
    ensures Lookup(mapping, key) == if mapping[m].testResultId == "" then None else Some(mapping[m].testResultId)
    decreases |mapping|
  {
    if m < |mapping| - 1 {
      var front := mapping[..|mapping| - 1];
      assert front[m] == mapping[m] && mapping[|mapping| - 1].clientKey != key;
      LookupMeans(front, key, m);
    }
  }

  function Register(testResultId: string, a: Artifact): Registration {
    Registration(testResultId, a.kind, a.name, a.contentType, a.sizeBytes, a.attempt, a.role, a.snapshotName)
  }

  /** A registration and the file it is for: position `i` of the two parallel arrays. */
  datatype Item = Item(registration: Registration, local: Artifact)

  function EntryItems(testResultId: string, artifacts: seq<Artifact>): (items: seq<Item>)
    ensures |items| == |artifacts|
    ensures forall j :: 0 <= j < |items| ==> items[j] == Item(Register(testResultId, artifacts[j]), artifacts[j])
  {
    seq(|artifacts|, j requires 0 <= j < |artifacts| => Item(Register(testResultId, artifacts[j]), artifacts[j]))
  }

  /** The artifacts of every entry the server knows, each registered under that entry's own row, in batch order. */
  function Items(batch: seq<BatchEntry>, mapping: seq<ResultMapping>): seq<Item> {
    if batch == [] then []
    else
      var row := Lookup(mapping, batch[0].clientKey);
      (if row.Some? then EntryItems(row.value, batch[0].artifacts) else []) + Items(batch[1..], mapping)
  }

  function Registrations(items: seq<Item>): (r: seq<Registration>)
    ensures |r| == |items| && forall i :: 0 <= i < |r| ==> r[i] == items[i].registration
  {
    seq(|items|, i requires 0 <= i < |items| => items[i].registration)
  }

  function Locals(items: seq<Item>): (r: seq<Artifact>)
    ensures |r| == |items| && forall i :: 0 <= i < |r| ==> r[i] == items[i].local
  {
    seq(|items|, i requires 0 <= i < |items| => items[i].local)
  }

  lemma {:induction false} ItemsConcat(a: seq<BatchEntry>, b: seq<BatchEntry>, mapping: seq<ResultMapping>)
    ensures Items(a + b, mapping) == Items(a, mapping) + Items(b, mapping)
  {
    hide Lookup;
    if a == [] {
      assert a + b == b;
    } else {
      assert (a + b)[0] == a[0] && (a + b)[1..] == a[1..] + b;
      ItemsConcat(a[1..], b, mapping);
    }
  }

  lemma ItemsOne(entry: BatchEntry, mapping: seq<ResultMapping>)
    ensures var row := Lookup(mapping, entry.clientKey);
            Items([entry], mapping) == if row.Some? then EntryItems(row.value, entry.artifacts) else []
    ensures entry.artifacts == [] ==> Items([entry], mapping) == []
  {
    hide Lookup;
    assert [entry][1..] == [];
  }

  lemma ItemAt(batch: seq<BatchEntry>, mapping: seq<ResultMapping>, k: nat, j: nat)
    requires k < |batch| && j < |batch[k].artifacts| && Lookup(mapping, batch[k].clientKey).Some?
    ensures var i := |Items(batch[..k], mapping)| + j;
            var a, row := batch[k].artifacts[j], Lookup(mapping, batch[k].clientKey).value;
            i < |Items(batch, mapping)| && Items(batch, mapping)[i] == Item(Register(row, a), a)
  {
    hide Lookup, Items;
    assert batch == batch[..k] + [batch[k]] + batch[k + 1..];
    ItemsConcat(batch[..k] + [batch[k]], batch[k + 1..], mapping);
    ItemsConcat(batch[..k], [batch[k]], mapping);
    ItemsOne(batch[k], mapping);
  }

  /** And nothing else is registered: every place belongs to one artifact of one entry the server knows. */
  lemma {:induction false} EveryPlaceHasAnOrigin(batch: seq<BatchEntry>, mapping: seq<ResultMapping>, i: nat)
    returns (k: nat, j: nat)
    requires i < |Items(batch, mapping)|
    ensures k < |batch| && j < |batch[k].artifacts| && Lookup(mapping, batch[k].clientKey).Some?
    ensures i == |Items(batch[..k], mapping)| + j
  {
    hide Lookup;
    var front, last := batch[..|batch| - 1], batch[|batch| - 1];
    assert batch == front + [last];
    ItemsConcat(front, [last], mapping);
    ItemsOne(last, mapping);
    if i < |Items(front, mapping)| {
      k, j := EveryPlaceHasAnOrigin(front, mapping, i);
      assert front[..k] == batch[..k];
    } else {
      k, j := |front|, i - |Items(front, mapping)|;
    }
  }

  /** A file is offered for upload exactly when the server knows the row of an entry it was collected for. */
  lemma UploadableExactly(batch: seq<BatchEntry>, mapping: seq<ResultMapping>, a: Artifact)
    ensures a in Locals(Items(batch, mapping)) <==>
            exists k :: 0 <= k < |batch| && Lookup(mapping, batch[k].clientKey).Some? && a in batch[k].artifacts
  {
    hide Lookup, Items;
    var items := Items(batch, mapping);
    if a in Locals(items) {
      var i :| 0 <= i < |items| && Locals(items)[i] == a;
      var k, j := EveryPlaceHasAnOrigin(batch, mapping, i);
      ItemAt(batch, mapping, k, j);
      assert batch[k].artifacts[j] == a;
    }
    forall k | 0 <= k < |batch| && Lookup(mapping, batch[k].clientKey).Some? && a in batch[k].artifacts
      ensures a in Locals(items)
    {
      var j :| 0 <= j < |batch[k].artifacts| && batch[k].artifacts[j] == a;
      ItemAt(batch, mapping, k, j);
      assert Locals(items)[|Items(batch[..k], mapping)| + j] == a;
    }
  }

  function ByClientKey(mapping: seq<ResultMapping>): (m: map<string, string>)
    ensures forall k :: Lookup(mapping, k) == if k in m && m[k] != "" then Some(m[k]) else None
  {
    if mapping == [] then map[]
    else
      var last := mapping[|mapping| - 1];
      ByClientKey(mapping[..|mapping| - 1])[last.clientKey := last.testResultId]
  }

  /** The two arrays hold these items, position by position. */
  predicate Holds(registrations: seq<Registration>, locals: seq<Artifact>, items: seq<Item>) {
    registrations == Registrations(items) && locals == Locals(items)
  }

  lemma HoldsMore(registrations: seq<Registration>, locals: seq<Artifact>, items: seq<Item>, item: Item)
    requires Holds(registrations, locals, items)
    ensures Holds(registrations + [item.registration], locals + [item.local], items + [item])
  {
  }

  /**
   * Artifact `j` of entry `k`: in both arrays it stands at the same place, described field by field, under the row
   * that the mapping's last word for the key of entry `k` names.
   */
  lemma CarriesOwnRow(batch: seq<BatchEntry>, mapping: seq<ResultMapping>, k: nat, j: nat, m: nat,
                      registrations: seq<Registration>, locals: seq<Artifact>)
    requires Holds(registrations, locals, Items(batch, mapping))
    requires k < |batch| && j < |batch[k].artifacts|
    requires LastMapped(mapping, batch[k].clientKey, m) && mapping[m].testResultId != ""
    ensures var i, a := |Items(batch[..k], mapping)| + j, batch[k].artifacts[j];
            && i < |registrations| == |locals| && locals[i] == a
            && registrations[i].testResultId == mapping[m].testResultId
            && registrations[i].kind == a.kind && registrations[i].name == a.name
            && registrations[i].contentType == a.contentType && registrations[i].sizeBytes == a.sizeBytes
            && registrations[i].attempt == a.attempt && registrations[i].role == a.role
            && registrations[i].snapshotName == a.snapshotName
  {
    hide Lookup, Items;
    LookupMeans(mapping, batch[k].clientKey, m);
    ItemAt(batch, mapping, k, j);
  }

  method CorrelateUploads(batch: seq<BatchEntry>, mapping: seq<ResultMapping>)
    returns (registrations: seq<Registration>, locals: seq<Artifact>)
    ensures Holds(registrations, locals, Items(batch, mapping))
  {
    hide Holds, Items, Lookup;
    var byClientKey := ByClientKey(mapping);
    registrations, locals := [], [];
    assert Holds([], [], Items(batch[..0], mapping)) by { NothingHeld(batch, mapping); }
    var i := 0;
    while i < |batch|
      invariant i <= |batch| && Holds(registrations, locals, Items(batch[..i], mapping))
    {
      var entry := batch[i];
      ghost var before := Items(batch[..i], mapping);
      assert batch[..i + 1] == batch[..i] + [entry];
      ItemsConcat(batch[..i], [entry], mapping);
      ItemsOne(entry, mapping);
      assert before + [] == before;
      i := i + 1;
      if |entry.artifacts| == 0 { continue; }
      if entry.clientKey !in byClientKey || byClientKey[entry.clientKey] == "" { continue; }
      registrations, locals := AddEntry(registrations, locals, entry, byClientKey[entry.clientKey], before);
    }
    assert batch[..|batch|] == batch;
  }

  lemma NothingHeld(batch: seq<BatchEntry>, mapping: seq<ResultMapping>)
    ensures Holds([], [], Items(batch[..0], mapping))
  {
  }

  /** The inner loop: one registration and one local file for each artifact of the entry. */
  method AddEntry(registrations: seq<Registration>, locals: seq<Artifact>, entry: BatchEntry, testResultId: string,
                  ghost before: seq<Item>)
    returns (registrations': seq<Registration>, locals': seq<Artifact>)
    requires Holds(registrations, locals, before)
    ensures Holds(registrations', locals', before + EntryItems(testResultId, entry.artifacts))
  {
    hide Holds, EntryItems;
    registrations', locals' := registrations, locals;
    ghost var added := EntryItems(testResultId, entry.artifacts);
    assert before + added[..0] == before;
    for j := 0 to |entry.artifacts|
      invariant Holds(registrations', locals', before + added[..j])
    {
      var a := entry.artifacts[j];
      HoldsMore(registrations', locals', before + added[..j], added[j]);
      assert before + added[..j + 1] == before + added[..j] + [added[j]];
      registrations' := registrations' + [Register(testResultId, a)];
      locals' := locals' + [a];
    }
    assert added[..|added|] == added;
  }

  // ----- Register and upload -----

  /** How a register call ends; `uploads` may be short or have holes. */
  datatype RegisterOutcome =
    | Registered(uploads: seq<Option<string>>)
    | TooLarge(maxBytes: nat)   // status 413 with the server's limit
    | Refused                   // anything else

  datatype UploadResult = UploadResult(ok: nat, failed: nat)

  /** One PUT: the URL the server gave for an item, and the item whose file is sent there. */
  datatype Put = Put(url: string, item: Item)

  /** URL `i` is for item `i`; what has no URL is not sent. */
  function PutsUpTo(uploads: seq<Option<string>>, items: seq<Item>, n: nat): (puts: seq<Put>)
    requires n <= |items| && n <= |uploads|
  {
    if n == 0 then []
    else
      PutsUpTo(uploads, items, n - 1)
      + if uploads[n - 1].Some? then [Put(uploads[n - 1].value, items[n - 1])] else []
  }

  function Puts(uploads: seq<Option<string>>, items: seq<Item>): seq<Put> {
    PutsUpTo(uploads, items, Min(|uploads|, |items|))
  }

  /** The first so many that satisfy `p`. */
  function Chosen(p: nat -> bool, n: nat): set<nat> {
    set i: nat | i < n && p(i)
  }

  lemma ChosenNext(p: nat -> bool, n: nat)
    ensures |Chosen(p, n + 1)| == |Chosen(p, n)| + if p(n) then 1 else 0
    ensures |Chosen(p, 0)| == 0
  {
    assert Chosen(p, n + 1) == Chosen(p, n) + if p(n) then {n} else {};
    assert Chosen(p, 0) == {};
  }

  /** There is a URL at this place. */
  function Given(uploads: seq<Option<string>>): nat -> bool {
    (i: nat) => i < |uploads| && uploads[i].Some?
  }

  lemma {:induction false} PutsPlaced(uploads: seq<Option<string>>, items: seq<Item>, n: nat, i: nat)
    requires i < n <= |items| && n <= |uploads|
    ensures var given := Given(uploads);
            && |PutsUpTo(uploads, items, n)| == |Chosen(given, n)|
            && |Chosen(given, i)| <= |Chosen(given, n)|
            && (uploads[i].Some? ==>
                  |Chosen(given, i)| < |Chosen(given, n)|
                  && PutsUpTo(uploads, items, n)[|Chosen(given, i)|] == Put(uploads[i].value, items[i]))
    decreases n
  {
    var given := Given(uploads);
    ChosenNext(given, n - 1);
    if i < n - 1 {
      PutsPlaced(uploads, items, n - 1, i);
    } else if n > 1 {
      PutsPlaced(uploads, items, n - 1, 0);
    }
  }

  /** The file of item `i` goes to URL `i` if there is one, in order, and nothing else is sent. */
  lemma FileToOwnUrl(uploads: seq<Option<string>>, items: seq<Item>, i: nat)
    requires i < |uploads| && i < |items|
    ensures |Puts(uploads, items)| == |set j: nat | j < |uploads| && j < |items| && uploads[j].Some?|
    ensures uploads[i].Some? ==>
              var place := |set j: nat | j < i && uploads[j].Some?|;
              place < |Puts(uploads, items)| && Puts(uploads, items)[place] == Put(uploads[i].value, items[i])
  {
    var given := Given(uploads);
    var n := Min(|uploads|, |items|);
    PutsPlaced(uploads, items, n, i);
    assert Chosen(given, n) == set j: nat | j < |uploads| && j < |items| && uploads[j].Some?;
    assert Chosen(given, i) == set j: nat | j < i && uploads[j].Some?;
  }

  /** The items that the server's limit admits. */
  function Fitting(items: seq<Item>, maxBytes: nat): seq<Item> {
    if items == [] then []
    else
      var last := items[|items| - 1];
      Fitting(items[..|items| - 1], maxBytes) + if last.local.sizeBytes <= maxBytes then [last] else []
  }

  function Fits(items: seq<Item>, maxBytes: nat): nat -> bool {
    (i: nat) => i < |items| && items[i].local.sizeBytes <= maxBytes
  }

  lemma {:induction false} FittingPlaced(items: seq<Item>, maxBytes: nat, i: nat)
    requires i < |items|
    ensures var fits := Fits(items, maxBytes);
            && |Fitting(items, maxBytes)| == |Chosen(fits, |items|)|
            && |Chosen(fits, i)| <= |Chosen(fits, |items|)|
            && (items[i].local.sizeBytes <= maxBytes ==>
                  |Chosen(fits, i)| < |Chosen(fits, |items|)| && Fitting(items, maxBytes)[|Chosen(fits, i)|] == items[i])
    decreases |items|
  {
    var fits := Fits(items, maxBytes);
    var n, front := |items| - 1, items[..|items| - 1];
    var fitsFront := Fits(front, maxBytes);
    ChosenNext(fits, n);
    assert Chosen(fits, n) == Chosen(fitsFront, n);
    if n > 0 {
      FittingPlaced(front, maxBytes, Min(i, n - 1));
      assert i < n ==> Chosen(fits, i) == Chosen(fitsFront, i);
    } else {
      assert front == [];
    }
  }

  /** Exactly the files within the limit are kept, in order. */
  lemma KeptExactly(items: seq<Item>, maxBytes: nat, i: nat)
    requires i < |items|
    ensures |Fitting(items, maxBytes)| == |set j: nat | j < |items| && items[j].local.sizeBytes <= maxBytes|
    ensures items[i].local.sizeBytes <= maxBytes ==>
              var place := |set j: nat | j < i && items[j].local.sizeBytes <= maxBytes|;
              place < |Fitting(items, maxBytes)| && Fitting(items, maxBytes)[place] == items[i]
  {
    var fits := Fits(items, maxBytes);
    FittingPlaced(items, maxBytes, i);
    assert Chosen(fits, |items|) == set j: nat | j < |items| && items[j].local.sizeBytes <= maxBytes;
    assert Chosen(fits, i) == set j: nat | j < i && items[j].local.sizeBytes <= maxBytes;
  }

  /** Every registration describes its own file's size. */
  predicate Sized(items: seq<Item>) {
    forall i :: 0 <= i < |items| ==> items[i].registration.sizeBytes == items[i].local.sizeBytes
  }

  lemma ItemsSized(batch: seq<BatchEntry>, mapping: seq<ResultMapping>)
    ensures Sized(Items(batch, mapping))
  {
    hide Lookup, Items;
    forall i | 0 <= i < |Items(batch, mapping)|
      ensures Items(batch, mapping)[i].registration.sizeBytes == Items(batch, mapping)[i].local.sizeBytes
    {
      var k, j := EveryPlaceHasAnOrigin(batch, mapping, i);
      ItemAt(batch, mapping, k, j);
    }
  }

  /** Drops what the server's limit refuses, from both arrays alike. */
  method DropOversized(registrations: seq<Registration>, locals: seq<Artifact>, maxBytes: nat, ghost items: seq<Item>)
    returns (keptRegistrations: seq<Registration>, keptLocals: seq<Artifact>, dropped: nat)
    requires Holds(registrations, locals, items) && Sized(items)
    ensures Holds(keptRegistrations, keptLocals, Fitting(items, maxBytes))
    ensures dropped + |keptLocals| == |locals|
  {
    keptRegistrations, keptLocals, dropped := [], [], 0;
    for i := 0 to |registrations|
      invariant Holds(keptRegistrations, keptLocals, Fitting(items[..i], maxBytes))
      invariant dropped + |keptLocals| == i
    {
      assert items[..i + 1][..i] == items[..i];
      if registrations[i].sizeBytes > maxBytes {
        dropped := dropped + 1;
      } else {
        HoldsMore(keptRegistrations, keptLocals, Fitting(items[..i], maxBytes), items[i]);
        keptRegistrations, keptLocals := keptRegistrations + [registrations[i]], keptLocals + [locals[i]];
      }
    }
    assert items[..|items|] == items;
  }

  /** The PUT at this place is made and ends well, or does not. */
  function Ending(uploads: seq<Option<string>>, putOk: nat -> bool, ok: bool): nat -> bool {
    (i: nat) => i < |uploads| && uploads[i].Some? && putOk(i) == ok
  }

  lemma {:induction false} EndingTotal(uploads: seq<Option<string>>, n: nat, putOk: nat -> bool)
    ensures var sent := |Chosen(Ending(uploads, putOk, true), n)| + |Chosen(Ending(uploads, putOk, false), n)|;
            sent <= n && (sent == n <==> n <= |uploads| && forall i :: 0 <= i < n ==> uploads[i].Some?)
  {
    hide Chosen;
    if n > 0 {
      EndingTotal(uploads, n - 1, putOk);
      ChosenNext(Ending(uploads, putOk, true), n - 1);
      ChosenNext(Ending(uploads, putOk, false), n - 1);
    } else {
      ChosenNext(Ending(uploads, putOk, true), 0);
      ChosenNext(Ending(uploads, putOk, false), 0);
    }
  }

  lemma NoneBeyond(p: nat -> bool, m: nat, n: nat)
    requires m <= n && forall i :: m <= i < n ==> !p(i)
    ensures Chosen(p, m) == Chosen(p, n)
  {
  }

  /** The PUTs, each counted as done or failed. */
  method PutAll(registrations: seq<Registration>, locals: seq<Artifact>, uploads: seq<Option<string>>,
                putOk: nat -> bool, ghost items: seq<Item>)
    returns (ok: nat, failed: nat, ghost puts: seq<Put>)
    requires Holds(registrations, locals, items)
    ensures ok == |Chosen(Ending(uploads, putOk, true), |items|)|
    ensures failed == |Chosen(Ending(uploads, putOk, false), |items|)|
    ensures puts == Puts(uploads, items)
  {
    hide Chosen;
    ok, failed, puts := 0, 0, [];
    ghost var well, ill := Ending(uploads, putOk, true), Ending(uploads, putOk, false);
    ChosenNext(well, 0);
    ChosenNext(ill, 0);
    for i := 0 to |uploads|
      invariant ok == |Chosen(well, Min(i, |locals|))| && failed == |Chosen(ill, Min(i, |locals|))|
      invariant puts == PutsUpTo(uploads, items, Min(i, |locals|))
    {
      ChosenNext(well, i);
      ChosenNext(ill, i);
      if i >= |locals| || uploads[i].None? { continue; }
      puts := puts + [Put(uploads[i].value, items[i])];
      if putOk(i) { ok := ok + 1; } else { failed := failed + 1; }
    }
    NoneBeyond(well, Min(|uploads|, |items|), |items|);
    NoneBeyond(ill, Min(|uploads|, |items|), |items|);
  }

  /** The places of the PUTs by outcome, spelled out. */
  lemma EndingPlaces(uploads: seq<Option<string>>, n: nat, putOk: nat -> bool)
    ensures Chosen(Ending(uploads, putOk, true), n) ==
            set i: nat | i < |uploads| && i < n && uploads[i].Some? && putOk(i)
    ensures Chosen(Ending(uploads, putOk, false), n) ==
            set i: nat | i < |uploads| && i < n && uploads[i].Some? && !putOk(i)
    ensures n == 0 ==> |Chosen(Ending(uploads, putOk, true), n)| == |Chosen(Ending(uploads, putOk, false), n)| == 0
  {
    ChosenNext(Ending(uploads, putOk, true), n);
    ChosenNext(Ending(uploads, putOk, false), n);
  }

  /**
   * `upload` for any outcome of its calls: every file goes to the URL of its own registration, `ok` counts the
   * PUTs that succeeded, `failed` the others and what was dropped, or everything if no call was accepted; and the
   * two counts make up the registrations unless a call was accepted without a URL for each of them.
   */
  method Upload(batch: seq<BatchEntry>, mapping: seq<ResultMapping>, first: RegisterOutcome, second: RegisterOutcome,
                putOk: nat -> bool)
    returns (result: UploadResult, ghost puts: seq<Put>)
    ensures var all := Items(batch, mapping);
            var kept := if first.TooLarge? then Fitting(all, first.maxBytes) else all;
            var accepted := first.Registered? || (first.TooLarge? && second.Registered?);
            var urls := if first.Registered? then first.uploads else if accepted then second.uploads else [];
            && result.ok == |set i: nat | i < |urls| && i < |kept| && urls[i].Some? && putOk(i)|
            && result.failed == (
                 if accepted then
                   |all| - |kept| + |set i: nat | i < |urls| && i < |kept| && urls[i].Some? && !putOk(i)|
                 else |all|)
            && (result.ok + result.failed == |all| <==>
                  !accepted || (|kept| <= |urls| && forall i :: 0 <= i < |kept| ==> urls[i].Some?))
    ensures puts == Puts(if first.Registered? then first.uploads
                         else if first.TooLarge? && second.Registered? then second.uploads else [],
                         if first.TooLarge? then Fitting(Items(batch, mapping), first.maxBytes)
                         else Items(batch, mapping))
  {
    hide Items;
    puts := [];
    ghost var all := Items(batch, mapping);
    ghost var kept := if first.TooLarge? then Fitting(all, first.maxBytes) else all;
    ghost var urls := if first.Registered? then first.uploads
                      else if first.TooLarge? && second.Registered? then second.uploads else [];
    EndingPlaces(urls, |kept|, putOk);
    EndingTotal(urls, |kept|, putOk);
    var registrations, locals := CorrelateUploads(batch, mapping);
    if |registrations| == 0 {
      assert all == [];
      return UploadResult(0, 0), [];
    }
    var toRegister, toUpload, dropped := registrations, locals, 0;
    var uploads: seq<Option<string>>;
    match first {
      case Registered(us) => uploads := us;
      case Refused => return UploadResult(0, |registrations|), [];
      case TooLarge(maxBytes) =>
        ItemsSized(batch, mapping);
        toRegister, toUpload, dropped := DropOversized(registrations, locals, maxBytes, all);
        if |toRegister| == 0 {
          return UploadResult(0, dropped), [];
        }
        if !second.Registered? {
          return UploadResult(0, |registrations|), [];
        }
        uploads := second.uploads;
    }
    var ok, failed;
    ok, failed, puts := PutAll(toRegister, toUpload, uploads, putOk, kept);
    result := UploadResult(ok, dropped + failed);
  }
}
