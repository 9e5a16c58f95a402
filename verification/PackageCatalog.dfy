/** The reviewed package catalog: its two indexes, the verification of a
    package on disk, and the lookup by content hash. */
module PackageCatalogs {
  import opened Wrappers
  import opened Texts
  import JsonKeys
  import opened Manifests
  import opened Catalogs

  const MAX_MANIFEST_BYTES: nat := 0x1_0000
  const RUNTIMES := {"amd64", "arm64"}

  datatype CatalogEntry = CatalogEntry(manifest: Manifest, contentHash: string, architectures: seq<string>)

  /** An entry as the indexes hold it: its architectures sorted and compacted,
      which membership tests see as a set. */
  datatype IndexedEntry = IndexedEntry(manifest: Manifest, contentHash: string, architectures: set<string>)

  datatype Catalog = Catalog(entries: map<string, IndexedEntry>, byContentHash: map<string, IndexedEntry>)

  datatype VerifiedPackage = VerifiedPackage(
    packageId: string, purpose: string, version: string, architecture: string,
    contentHash: string, licenseId: string, size: Int64)

  function Indexed(entry: CatalogEntry): IndexedEntry {
    IndexedEntry(entry.manifest, entry.contentHash, set a | a in entry.architectures)
  }

  // --------------------------------------------------------- construction

  predicate Distinct(texts: seq<string>) {
    forall i, j :: 0 <= i < j < |texts| ==> texts[i] != texts[j]
  }

  /** Compacting leaves the length alone exactly when nothing repeats. */
  lemma {:induction false} CompactKeepsDistinct(texts: seq<string>)
    ensures |set t | t in texts| <= |texts|
    ensures |set t | t in texts| == |texts| <==> Distinct(texts)
  {
    if texts != [] {
      var init, last := texts[..|texts| - 1], texts[|texts| - 1];
      CompactKeepsDistinct(init);
      assert (set t | t in texts) == (set t | t in init) + {last};
      if last in init {
        assert (set t | t in texts) == (set t | t in init);
      }
    }
  }

  predicate SoundEntry(entry: CatalogEntry) {
    && ValidManifest(entry.manifest) && HexSha256(entry.contentHash)
    && entry.architectures != [] && Distinct(entry.architectures)
    && forall a :: a in entry.architectures ==> a in RUNTIMES
  }

  function PackageId(entry: CatalogEntry): string { entry.manifest.packageId }
  function ContentHash(entry: CatalogEntry): string { entry.contentHash }

  predicate Apart(key: CatalogEntry -> string, entries: seq<CatalogEntry>, n: nat)
    requires n <= |entries|
  {
    forall i, j :: 0 <= i < j < n ==> key(entries[i]) != key(entries[j])
  }

  function Keys(key: CatalogEntry -> string, entries: seq<CatalogEntry>, n: nat): set<string>
    requires n <= |entries|
  {
    set i | 0 <= i < n :: key(entries[i])
  }

  /** An index holds exactly the first `n` entries, each under its key. */
  predicate IndexHolds(
      index: map<string, IndexedEntry>, key: CatalogEntry -> string, entries: seq<CatalogEntry>, n: nat)
    requires n <= |entries|
  {
    && index.Keys == Keys(key, entries, n)
    && forall i :: 0 <= i < n ==> key(entries[i]) in index && index[key(entries[i])] == Indexed(entries[i])
  }

  predicate Holds(catalog: Catalog, entries: seq<CatalogEntry>, n: nat)
    requires n <= |entries|
  {
    IndexHolds(catalog.entries, PackageId, entries, n) && IndexHolds(catalog.byContentHash, ContentHash, entries, n)
  }

  /** The invariant of a catalog: following one index and then the other comes
      back to the same entry, from either side. */
  predicate ValidCatalog(catalog: Catalog) {
    && (forall id :: id in catalog.entries ==>
      var e := catalog.entries[id];
      && e.manifest.packageId == id && ValidManifest(e.manifest) && HexSha256(e.contentHash)
      && e.architectures <= RUNTIMES
      && e.contentHash in catalog.byContentHash && catalog.byContentHash[e.contentHash] == e)
    && (forall h :: h in catalog.byContentHash ==>
      var e := catalog.byContentHash[h];
      e.contentHash == h && e.manifest.packageId in catalog.entries && catalog.entries[e.manifest.packageId] == e)
  }

  lemma HeldEntriesAgree(catalog: Catalog, entries: seq<CatalogEntry>)
    requires Holds(catalog, entries, |entries|) && forall i :: 0 <= i < |entries| ==> SoundEntry(entries[i])
    ensures ValidCatalog(catalog)
  {
    hide ValidManifest, HexSha256, Distinct;
    forall id | id in catalog.entries
      ensures exists i ::
        0 <= i < |entries| && catalog.entries[id] == Indexed(entries[i]) && entries[i].manifest.packageId == id
    {
      assert id in Keys(PackageId, entries, |entries|);
      var i :| 0 <= i < |entries| && PackageId(entries[i]) == id;
      assert catalog.entries[id] == Indexed(entries[i]);
    }
    forall h | h in catalog.byContentHash
      ensures exists i ::
        0 <= i < |entries| && catalog.byContentHash[h] == Indexed(entries[i]) && entries[i].contentHash == h
    {
      assert h in Keys(ContentHash, entries, |entries|);
      var i :| 0 <= i < |entries| && ContentHash(entries[i]) == h;
      assert catalog.byContentHash[h] == Indexed(entries[i]);
    }
  }

  lemma IndexGrows(index: map<string, IndexedEntry>, key: CatalogEntry -> string, entries: seq<CatalogEntry>, n: nat)
    requires n < |entries| && IndexHolds(index, key, entries, n) && Apart(key, entries, n)
    requires key(entries[n]) !in index
    ensures IndexHolds(index[key(entries[n]) := Indexed(entries[n])], key, entries, n + 1)
    ensures Apart(key, entries, n + 1)
  {
    hide Indexed;
    assert Keys(key, entries, n + 1) == Keys(key, entries, n) + {key(entries[n])};
    hide Keys;
  }

  lemma HeldKeysRepeat(
      index: map<string, IndexedEntry>, key: CatalogEntry -> string, entries: seq<CatalogEntry>, n: nat)
    requires n < |entries| && IndexHolds(index, key, entries, n) && key(entries[n]) in index
    ensures !Apart(key, entries, |entries|)
  {
    hide Indexed;
    assert key(entries[n]) in Keys(key, entries, n);
  }

  /** A catalog is made of exactly the sound entries with distinct package ids
      and distinct content hashes, and its two indexes are inverse views of
      the same entries. */
  method NewCatalog(entries: seq<CatalogEntry>) returns (catalog: Option<Catalog>)
    ensures catalog.Some? <==>
      && (forall i :: 0 <= i < |entries| ==> SoundEntry(entries[i]))
      && Apart(PackageId, entries, |entries|) && Apart(ContentHash, entries, |entries|)
    ensures catalog.Some? ==> Holds(catalog.value, entries, |entries|) && ValidCatalog(catalog.value)
  {
    hide IndexHolds, ValidCatalog, Apart, SoundEntry;
    var result := Catalog(map[], map[]);
    NothingIsHeld(entries);
    for n := 0 to |entries|
      invariant forall i :: 0 <= i < n ==> SoundEntry(entries[i])
      invariant Apart(PackageId, entries, n) && Apart(ContentHash, entries, n)
      invariant Holds(result, entries, n)
    {
      var entry := entries[n];
      var sound := CheckEntry(entry);
      if !sound {
        return None;
      }
      if entry.manifest.packageId in result.entries {
        HeldKeysRepeat(result.entries, PackageId, entries, n);
        return None;
      }
      if entry.contentHash in result.byContentHash {
        HeldKeysRepeat(result.byContentHash, ContentHash, entries, n);
        return None;
      }
      IndexGrows(result.entries, PackageId, entries, n);
      IndexGrows(result.byContentHash, ContentHash, entries, n);
      result := Catalog(result.entries[entry.manifest.packageId := Indexed(entry)],
                        result.byContentHash[entry.contentHash := Indexed(entry)]);
    }
    HeldEntriesAgree(result, entries);
    return Some(result);
  }

  method CheckEntry(entry: CatalogEntry) returns (sound: bool)
    ensures sound <==> SoundEntry(entry)
  {
    hide ValidManifest, HexSha256, Distinct;
    var valid := ValidateManifest(entry.manifest);
    if !valid || !HexSha256(entry.contentHash) || entry.architectures == [] {
      return false;
    }
    var architectures := set a | a in entry.architectures;
    CompactKeepsDistinct(entry.architectures);
    return |architectures| == |entry.architectures| && architectures <= RUNTIMES;
  }

  lemma NothingIsHeld(entries: seq<CatalogEntry>)
    ensures Holds(Catalog(map[], map[]), entries, 0)
    ensures Apart(PackageId, entries, 0) && Apart(ContentHash, entries, 0)
  {
  }

  // ------------------------------------------------------- licence summary

  predicate Ascending(texts: seq<string>) {
    forall i, j :: 0 <= i < j < |texts| ==> TextBefore(texts[i], texts[j])
  }

  /** Adds a licence to an ordered list, unless it is already there. */
  function Insert(licence: string, sorted: seq<string>): (all: seq<string>)
  {
    if sorted == [] then [licence]
    else if licence == sorted[0] then sorted
    else if TextBefore(licence, sorted[0]) then [licence] + sorted
    else [sorted[0]] + Insert(licence, sorted[1..])
  }

  /** The licences of the first `n` files, without repetition, in order. */
  function Licences(files: seq<ManifestFile>, n: nat): seq<string>
    requires n <= |files|
  {
    if n == 0 then [] else Insert(files[n - 1].licenseId, Licences(files, n - 1))
  }

  function Joined(texts: seq<string>): string {
    if texts == [] then "" else if |texts| == 1 then texts[0] else texts[0] + " AND " + Joined(texts[1..])
  }

  function LicenceSummary(m: Manifest): string {
    if m.purpose == SEMANTIC then m.licenseId else Joined(Licences(m.files, |m.files|))
  }

  /** Licences are joined by " AND ", whatever their number. */
  lemma {:induction false} JoinedAtTheEnd(texts: seq<string>, last: string)
    ensures Joined(texts + [last]) == if texts == [] then last else Joined(texts) + " AND " + last
  {
    if |texts| > 1 {
      assert (texts + [last])[1..] == texts[1..] + [last];
      JoinedAtTheEnd(texts[1..], last);
    } else if |texts| == 1 {
      assert (texts + [last])[1..] == [last];
    }
  }

  /** A semantic package has its own licence, a face package those of its
      files: three at most, each once, in order. */
  lemma SummariesAre(m: Manifest)
    requires ValidManifest(m)
    ensures m.purpose == SEMANTIC ==> LicenceSummary(m) == m.licenseId && m.licenseId != ""
    ensures m.purpose == FACE ==> exists licences ::
      && Ascending(licences) && LicenceSummary(m) == Joined(licences)
      && forall t :: t in licences <==> exists i :: 0 <= i < |m.files| && m.files[i].licenseId == t
  {
    if m.purpose == FACE {
      LicencesAreInOrder(m.files, |m.files|);
      var licences := Licences(m.files, |m.files|);
      assert forall t :: t in licences <==> t in LicencesOf(m.files, |m.files|);
    } else {
      SummariesAreNotEmpty(m);
    }
  }

  function LicencesOf(files: seq<ManifestFile>, n: nat): set<string>
    requires n <= |files|
  {
    set i | 0 <= i < n :: files[i].licenseId
  }

  lemma {:induction false} InsertKeepsOrder(licence: string, sorted: seq<string>)
    requires Ascending(sorted)
    ensures Ascending(Insert(licence, sorted))
    ensures forall t :: t in Insert(licence, sorted) <==> t == licence || t in sorted
  {
    hide TextBefore;
    if sorted != [] && licence != sorted[0] {
      TextOrderIsTotal(licence, sorted[0]);
      if TextBefore(licence, sorted[0]) {
        forall i | 0 < i < |sorted| ensures TextBefore(licence, sorted[i]) {
          TextOrderIsTransitive(licence, sorted[0], sorted[i]);
        }
      } else {
        var rest := Insert(licence, sorted[1..]);
        InsertKeepsOrder(licence, sorted[1..]);
        forall i | 0 <= i < |rest| ensures TextBefore(sorted[0], rest[i]) {
          assert rest[i] in rest;
        }
      }
    }
  }

  lemma {:induction false} LicencesAreInOrder(files: seq<ManifestFile>, n: nat)
    requires n <= |files|
    ensures Ascending(Licences(files, n))
    ensures forall t :: t in Licences(files, n) <==> t in LicencesOf(files, n)
  {
    if n > 0 {
      LicencesAreInOrder(files, n - 1);
      InsertKeepsOrder(files[n - 1].licenseId, Licences(files, n - 1));
      assert LicencesOf(files, n) == LicencesOf(files, n - 1) + {files[n - 1].licenseId};
    }
  }

  lemma {:induction false} AscendingIsUnique(a: seq<string>, b: seq<string>)
    requires Ascending(a) && Ascending(b) && forall t :: t in a <==> t in b
    ensures a == b
  {
    assert b != [] ==> b[0] in a && a != [];
    if a == [] {
      assert |b| == 0;
    } else {
      assert a[0] in b;
      TextOrderIsTotal(a[0], b[0]);
      assert a[0] == b[0];
      forall t ensures t in a[1..] <==> t in b[1..] {
        TextOrderIsTotal(a[0], a[0]);
        assert t in a <==> t in b;
      }
      AscendingIsUnique(a[1..], b[1..]);
      assert a == [a[0]] + a[1..] && b == [b[0]] + b[1..];
    }
  }

  /** The summary names every licence of the files once, whatever their order. */
  lemma SummaryIgnoresFileOrder(m: Manifest, k: Manifest)
    requires m.purpose == k.purpose && m.licenseId == k.licenseId
    requires LicencesOf(m.files, |m.files|) == LicencesOf(k.files, |k.files|)
    ensures LicenceSummary(m) == LicenceSummary(k)
  {
    LicencesAreInOrder(m.files, |m.files|);
    LicencesAreInOrder(k.files, |k.files|);
    AscendingIsUnique(Licences(m.files, |m.files|), Licences(k.files, |k.files|));
  }

  // ---------------------------------------------------------- verification

  /** The summed file sizes: for a valid manifest the sum stays an int64. */
  method PackageSize(files: seq<ManifestFile>) returns (total: Int64)
    requires TotalSize(files) <= MAX_PACKAGE_BYTES && forall i :: 0 <= i < |files| ==> files[i].size > 0
    ensures total == TotalSize(files)
  {
    total := 0;
    for n := 0 to |files|
      invariant 0 <= total == SizeUpTo(files, n)
    {
      SizesGrow(files, n + 1, |files|);
      total := total + files[n].size;
    }
  }

  function Described(e: IndexedEntry, architecture: string): VerifiedPackage
    requires ValidManifest(e.manifest)
  {
    ValidManifestsHaveThreeFiles(e.manifest);
    VerifiedPackage(e.manifest.packageId, e.manifest.purpose, e.manifest.version, architecture,
                    e.contentHash, LicenceSummary(e.manifest), TotalSize(e.manifest.files))
  }

  predicate ValidPackage(p: VerifiedPackage) {
    && 0 < |p.packageId| <= 128 && (p.purpose == SEMANTIC || p.purpose == FACE)
    && 0 < |p.version| <= 64 && p.architecture in RUNTIMES && HexSha256(p.contentHash)
    && 0 < |p.licenseId| <= 128 && p.size > 0
  }

  /** What a catalog offers under a content hash on an architecture. */
  ghost predicate Offers(catalog: Catalog, contentHash: string, architecture: string, p: VerifiedPackage, m: Manifest) {
    && contentHash in catalog.byContentHash
    && var e := catalog.byContentHash[contentHash];
    architecture in e.architectures && ValidManifest(e.manifest) && m == e.manifest && p == Described(e, architecture)
  }

  /** What is offered is described by its manifest, field by field. */
  lemma OffersAreDescribed(catalog: Catalog, contentHash: string, architecture: string, p: VerifiedPackage, m: Manifest)
    requires ValidCatalog(catalog) && Offers(catalog, contentHash, architecture, p, m)
    ensures p.packageId == m.packageId && p.purpose == m.purpose && p.version == m.version
    ensures p.architecture == architecture && p.contentHash == contentHash && p.licenseId == LicenceSummary(m)
    ensures |m.files| == 3 && p.size == m.files[0].size + m.files[1].size + m.files[2].size
  {
    ValidManifestsHaveThreeFiles(m);
    hide ValidManifest, LicenceSummary, HexSha256;
    assert SizeUpTo(m.files, 0) == 0 && SizeUpTo(m.files, 1) == m.files[0].size;
    assert SizeUpTo(m.files, 2) == m.files[0].size + m.files[1].size;
  }

  method PackageByContentHash(catalog: Catalog, contentHash: string, architecture: string)
    returns (found: Option<(VerifiedPackage, Manifest)>)
    requires ValidCatalog(catalog)
    ensures found.Some? ==> Offers(catalog, contentHash, architecture, found.value.0, found.value.1)
    ensures found.None? ==> forall p, m :: !Offers(catalog, contentHash, architecture, p, m)
  {
    hide ValidManifest, LicenceSummary, HexSha256;
    if !HexSha256(contentHash) || architecture !in RUNTIMES {
      return None;
    }
    if contentHash !in catalog.byContentHash || architecture !in catalog.byContentHash[contentHash].architectures {
      return None;
    }
    var e := catalog.byContentHash[contentHash];
    var m := e.manifest;
    ValidManifestsAreSized(m);
    var total := PackageSize(m.files);
    var offered := VerifiedPackage(
      m.packageId, m.purpose, m.version, architecture, contentHash, LicenceSummary(m), total);
    return Some((offered, m));
  }

  lemma ValidManifestsAreSized(m: Manifest)
    requires ValidManifest(m)
    ensures 0 < TotalSize(m.files) <= MAX_PACKAGE_BYTES && forall i :: 0 <= i < |m.files| ==> m.files[i].size > 0
    ensures DistinctNames(m.files) && forall i :: 0 <= i < |m.files| ==> m.files[i].name != ""
  {
    ValidManifestsHaveThreeFiles(m);
    hide PackageIdText, VersionText, LicenseText, RolesUpTo, DistinctNames, PlainName, HexSha256, TotalSize;
  }

  /** The description of a valid entry is a valid package but for one thing: a
      licence summary of more than 128 bytes. */
  lemma DescriptionsAreValidExactly(e: IndexedEntry, architecture: string)
    requires ValidManifest(e.manifest) && HexSha256(e.contentHash) && architecture in RUNTIMES
    ensures ValidPackage(Described(e, architecture)) <==> |LicenceSummary(e.manifest)| <= 128
  {
    ValidManifestsHaveThreeFiles(e.manifest);
    SummariesAreNotEmpty(e.manifest);
    hide CompletePackage, HexSha256, LicenceSummary;
  }

  lemma SummariesAreNotEmpty(m: Manifest)
    requires ValidManifest(m)
    ensures LicenceSummary(m) != ""
  {
    if m.formatVersion == 3 {
      ValidManifestsHaveThreeFiles(m);
      LicencesAreInOrder(m.files, 3);
      assert SoundFile(m.files[0], true);
      assert m.files[0].licenseId in LicencesOf(m.files, 3);
      var all := Licences(m.files, 3);
      assert all[0] in LicencesOf(m.files, 3);
      var i :| 0 <= i < 3 && m.files[i].licenseId == all[0];
      assert SoundFile(m.files[i], true);
    }
  }

  /** Verifies a package on disk: its manifest document, whose decoded form
      must equal the catalog's, and the facts of its files. Accepts exactly
      the documents and files of an offered package whose licence summary
      fits, and then describes it as the lookup by content hash does. */
  method Verify(
      catalog: Catalog, length: nat, tokens: seq<JsonKeys.Token>, decode: seq<JsonKeys.Token> -> Option<Manifest>,
      facts: seq<FileFact>, architecture: string)
    returns (r: Option<VerifiedPackage>)
    requires ValidCatalog(catalog)
    ensures r.Some? ==>
      decode(tokens).Some? && Offers(catalog, r.value.contentHash, architecture, r.value, decode(tokens).value)
    ensures r.Some? <==>
      && 0 < length <= MAX_MANIFEST_BYTES
      && (exists v :: JsonKeys.UniqueKeys(v) && tokens == JsonKeys.Print(v))
      && decode(tokens).Some?
      && FactsMatch(decode(tokens).value.files, facts)
      && |LicenceSummary(decode(tokens).value)| <= 128
      && exists h, p :: Offers(catalog, h, architecture, p, decode(tokens).value)
  {
    hide ValidManifest, LicenceSummary, HexSha256, FactsMatch;
    if length == 0 || length > MAX_MANIFEST_BYTES || architecture !in RUNTIMES {
      return None;
    }
    var unique := JsonKeys.RejectDuplicateKeys(tokens);
    if !unique || decode(tokens).None? {
      return None;
    }
    var m := decode(tokens).value;
    var valid := ValidateManifest(m);
    if !valid || m.packageId !in catalog.entries {
      return None;
    }
    var e := catalog.entries[m.packageId];
    if m != e.manifest || architecture !in e.architectures {
      return None;
    }
    ValidManifestsAreSized(m);
    var matched := VerifyFileFacts(m.files, facts);
    if !matched {
      return None;
    }
    var total := PackageSize(m.files);
    var verified := VerifiedPackage(
      m.packageId, m.purpose, m.version, architecture, e.contentHash, LicenceSummary(m), total);
    assert verified == Described(e, architecture);
    DescriptionsAreValidExactly(e, architecture);
    assert Offers(catalog, e.contentHash, architecture, verified, m);
    if !ValidPackage(verified) {
      return None;
    }
    return Some(verified);
  }

  // ------------------------------------------- offered, but never verified

  function Repeated(c: char, n: nat): (s: string)
    ensures |s| == n && forall i :: 0 <= i < n ==> s[i] == c
  {
    seq(n, _ => c)
  }

  /** A face package of three small files, one under a licence with a name as
      long as a licence may have. */
  function LongLicences(): Manifest {
    var hash, long := Repeated('0', 64), Repeated('a', 128);
    Manifest(3, "face", FACE, "1", PORTABLE, "", Some(FACE_CONTRACTS),
             [ManifestFile("d", 1, hash, "face_detector", long),
              ManifestFile("e", 1, hash, "face_embedder", "b"),
              ManifestFile("t", 1, hash, "face_threshold_profile", "b")])
  }

  function LongLicencesEntry(): IndexedEntry {
    IndexedEntry(LongLicences(), Repeated('1', 64), {"amd64"})
  }

  /** Three sound files of one byte under distinct names. */
  lemma SmallTrioIsComplete(files: seq<ManifestFile>, roles: set<string>)
    requires |files| == 3 && |roles| == 3 && roles == {files[0].role, files[1].role, files[2].role}
    requires files[0].name != files[1].name && files[1].name != files[2].name && files[0].name != files[2].name
    requires forall i :: 0 <= i < 3 ==> SoundFile(files[i], true) && files[i].size == 1
    ensures CompletePackage(files, roles, true)
  {
    hide SoundFile;
    assert files[0].role in RolesUpTo(files, 3) && files[1].role in RolesUpTo(files, 3);
    assert files[2].role in RolesUpTo(files, 3);
    assert RolesUpTo(files, 3) == roles;
    assert SizeUpTo(files, 0) == 0 && SizeUpTo(files, 1) == 1 && SizeUpTo(files, 2) == 2 && SizeUpTo(files, 3) == 3;
  }

  lemma SmallFileIsSound(file: ManifestFile)
    requires |file.name| == 1 && 'a' <= file.name[0] <= 'z' && file.size == 1 && file.sha256 == Repeated('0', 64)
    requires file.licenseId == Repeated('a', 128) || file.licenseId == Repeated('b', 1)
    ensures SoundFile(file, true)
  {
    SoundFilesExactly(file, true);
    hide SoundFile, Repeated;
  }

  lemma LongLicencesAreSound()
    ensures forall i :: 0 <= i < 3 ==> SoundFile(LongLicences().files[i], true)
  {
    hide SoundFile;
    assert Repeated('b', 1) == "b";
    SmallFileIsSound(LongLicences().files[0]);
    SmallFileIsSound(LongLicences().files[1]);
    SmallFileIsSound(LongLicences().files[2]);
  }

  lemma LongLicencesAreComplete()
    ensures CompletePackage(LongLicences().files, FACE_ROLES, true)
  {
    LongLicencesAreSound();
    hide SoundFile, Repeated, CompletePackage;
    var files := LongLicences().files;
    assert |files[0].name| == 1 && files[0].name[0] == 'd' && files[1].name[0] == 'e' && files[2].name[0] == 't';
    assert |FACE_ROLES| == 3;
    SmallTrioIsComplete(files, FACE_ROLES);
  }

  lemma LongLicencesAreValid()
    ensures ValidManifest(LongLicences())
  {
    LongLicencesAreComplete();
    hide CompletePackage, Repeated, SemanticV1, SemanticV2;
    assert PackageIdText("face") && VersionText("1");
    hide PackageIdText, VersionText;
  }

  lemma LongLicencesDoNotFit()
    ensures |LicenceSummary(LongLicences())| > 128
  {
    var files := LongLicences().files;
    var long := Repeated('a', 128);
    assert TextBefore(long, "b");
    TextOrderIsTotal(long, "b");
    hide TextBefore, Repeated;
    assert Licences(files, 0) == [] && Licences(files, 1) == [long];
    assert Licences(files, 2) == [long] + Insert("b", []);
    assert [long, "b"][1..] == ["b"];
    assert Licences(files, 3) == [long] + Insert("b", ["b"]);
    assert Joined([long, "b"]) == long + " AND " + Joined(["b"]);
  }

  /** This package is in a catalog and found by its content hash, but what
      `Verify` would return for it is not a valid package, so it refuses it
      whatever is on disk. */
  lemma OfferedButNeverVerified()
    ensures ValidManifest(LongLicencesEntry().manifest)
    ensures
      var e := LongLicencesEntry();
      var catalog := Catalog(map["face" := e], map[e.contentHash := e]);
      && ValidCatalog(catalog) && Offers(catalog, e.contentHash, "amd64", Described(e, "amd64"), e.manifest)
      && !ValidPackage(Described(e, "amd64"))
  {
    LongLicencesAreValid();
    LongLicencesDoNotFit();
    hide ValidManifest, LicenceSummary;
    DescriptionsAreValidExactly(LongLicencesEntry(), "amd64");
  }
}
