/** Model package manifests: the three validators, with their loops over maps
    of seen names and roles, against one declarative reading of a package. */
module Manifests {
  import opened Wrappers

  const MAX_PACKAGE_FILES: nat := 16
  const MAX_PACKAGE_BYTES: int := 0x1_0000_0000
  type Int64 = i: int | -0x8000_0000_0000_0000 <= i < 0x8000_0000_0000_0000

  const PORTABLE := "portable-onnx"
  const SEMANTIC := "semantic_image_text"
  const FACE := "face_detection_embedding"

  datatype ManifestFile = ManifestFile(name: string, size: Int64, sha256: string, role: string, licenseId: string)

  datatype Contracts = Contracts(
    imagePreprocess: string, textCanonical: string, tokenizer: string, embeddingAndStorage: string,
    decode: string, detector: string, postprocess: string, alignment: string,
    embedding: string, storage: string, thresholdProfile: string)

  const SEMANTIC_CONTRACTS := Contracts(
    "siglip-rgb224-bicubic-v1", "siglip-transformers-4.56.2-v1",
    "sentencepiece-32k-unk2-eos1-pad1-seq64-v1", "siglip-768-l2-f16le-v1",
    "", "", "", "", "", "", "")
  const FACE_CONTRACTS := Contracts(
    "", "", "", "",
    "libvips-srgb-longedge1600-v1", "yunet-bgr640-letterbox-score-sqrt-v1",
    "yunet-stride8-16-32-opencv-int-nms-v1", "arcface-5point-similarity112-bilinear-zero-v1",
    "auraface-rgb-minus127.5-div127.5-512-v1", "face-512-l2-f16le-v1", "face-threshold-profile-json-v1")

  datatype Manifest = Manifest(
    formatVersion: int, packageId: string, purpose: string, version: string, architecture: string,
    licenseId: string, contracts: Option<Contracts>, files: seq<ManifestFile>)

  const V1_ROLES := {"image_encoder", "text_encoder", "tokenizer"}
  const V2_ROLES := {"image_encoder", "text_encoder", "sentencepiece_model"}
  const FACE_ROLES := {"face_detector", "face_embedder", "face_threshold_profile"}

  // ---------------------------------------------------------------- texts

  predicate LowerHex(c: char) { '0' <= c <= '9' || 'a' <= c <= 'f' }
  predicate AlphaNumeric(c: char) { '0' <= c <= '9' || 'a' <= c <= 'z' || 'A' <= c <= 'Z' }

  predicate HexSha256(s: string) {
    |s| == 64 && forall i :: 0 <= i < |s| ==> LowerHex(s[i])
  }

  /** A letter or digit, then up to `max - 1` of those or of `extra`. */
  predicate Identifier(s: string, max: nat, extra: set<char>) {
    && 0 < |s| <= max && AlphaNumeric(s[0])
    && forall i :: 0 <= i < |s| ==> AlphaNumeric(s[i]) || s[i] in extra
  }

  predicate PackageIdText(s: string) { Identifier(s, 128, {'.', '_', '+', '-'}) }
  predicate VersionText(s: string) { Identifier(s, 64, {'.', '_', '+', '-'}) }
  predicate LicenseText(s: string) { Identifier(s, 128, {'.', '+', '-'}) }

  function WithoutTrailingSlashes(p: string): (q: string)
    ensures |q| <= |p| && (q == "" || q[|q| - 1] != '/') && q == p[..|q|]
    ensures forall i :: |q| <= i < |p| ==> p[i] == '/'
  {
    if p != "" && p[|p| - 1] == '/' then WithoutTrailingSlashes(p[..|p| - 1]) else p
  }

  function AfterLastSlash(p: string): (q: string)
    ensures |q| <= |p| && q == p[|p| - |q|..] && '/' !in q
    ensures |q| < |p| ==> p[|p| - |q| - 1] == '/'
  {
    if p == "" || p[|p| - 1] == '/' then "" else AfterLastSlash(p[..|p| - 1]) + [p[|p| - 1]]
  }

  /** The last element of a slash-separated path. */
  function PathBase(p: string): string {
    if p == "" then "."
    else if WithoutTrailingSlashes(p) == "" then "/"
    else AfterLastSlash(WithoutTrailingSlashes(p))
  }

  predicate PlainName(name: string) {
    && name != "" && |name| <= 255 && PathBase(name) == name
    && '\\' !in name && '\0' !in name && name != "." && name != ".."
  }

  lemma {:induction false} NoSlashNothingStripped(p: string)
    requires '/' !in p
    ensures AfterLastSlash(p) == p
  {
    if p != "" {
      NoSlashNothingStripped(p[..|p| - 1]);
    }
  }

  /** A plain name has no directory part, but for the root itself. */
  lemma PlainNamesHaveNoDirectory(name: string)
    requires name != ""
    ensures PathBase(name) == name <==> '/' !in name || name == "/"
  {
    if '/' !in name {
      NoSlashNothingStripped(name);
    }
  }

  /** The names that pass: of 1 to 255 bytes without a slash, backslash or NUL,
      other than the two dot names; and the root. */
  lemma PlainNamesExactly(name: string)
    ensures PlainName(name) <==>
      || name == "/"
      || (&& 0 < |name| <= 255 && '/' !in name && '\\' !in name && '\0' !in name
          && name != "." && name != "..")
  {
    if name != "" {
      PlainNamesHaveNoDirectory(name);
    }
    hide PathBase;
  }

  // ------------------------------------------------------------- packages

  /** The first `n` files: their sizes, names and roles. */
  function SizeUpTo(files: seq<ManifestFile>, n: nat): int
    requires n <= |files|
  {
    if n == 0 then 0 else SizeUpTo(files, n - 1) + files[n - 1].size
  }

  function NamesUpTo(files: seq<ManifestFile>, n: nat): set<string>
    requires n <= |files|
  {
    set i | 0 <= i < n :: files[i].name
  }

  function RolesUpTo(files: seq<ManifestFile>, n: nat): (roles: set<string>)
    requires n <= |files|
    ensures n == 0 ==> roles == {}
  {
    set i | 0 <= i < n :: files[i].role
  }

  /** What the validators ask of one file: a v1 or v2 file has no licence of
      its own, a face file must have one. */
  predicate SoundFile(file: ManifestFile, licensed: bool) {
    && PlainName(file.name) && file.size > 0 && HexSha256(file.sha256)
    && (if licensed then LicenseText(file.licenseId) else file.licenseId == "")
  }

  predicate DistinctNames(files: seq<ManifestFile>) {
    forall i, j :: 0 <= i < j < |files| ==> files[i].name != files[j].name
  }

  function TotalSize(files: seq<ManifestFile>): int {
    SizeUpTo(files, |files|)
  }

  /** A complete package: one sound file for each of the roles and no other,
      under distinct names, within the size limit altogether. */
  predicate CompletePackage(files: seq<ManifestFile>, roles: set<string>, licensed: bool) {
    && |files| == |roles| && RolesUpTo(files, |files|) == roles
    && DistinctNames(files) && TotalSize(files) <= MAX_PACKAGE_BYTES
    && forall i :: 0 <= i < |files| ==> SoundFile(files[i], licensed)
  }

  /** What the loops check of file `n` against the files before it. */
  predicate FileFits(files: seq<ManifestFile>, n: nat, roles: set<string>, licensed: bool)
    requires n < |files|
  {
    && SoundFile(files[n], licensed) && files[n].role in roles
    && files[n].name !in NamesUpTo(files, n) && files[n].role !in RolesUpTo(files, n)
  }

  lemma RolesGrow(files: seq<ManifestFile>, n: nat)
    requires n < |files|
    ensures RolesUpTo(files, n + 1) == RolesUpTo(files, n) + {files[n].role}
  {
  }

  lemma {:induction false} RolesAreNoMoreThanFiles(files: seq<ManifestFile>, n: nat)
    requires n <= |files|
    ensures |RolesUpTo(files, n)| <= n
  {
    hide RolesUpTo;
    if n > 0 {
      RolesAreNoMoreThanFiles(files, n - 1);
      RolesGrow(files, n - 1);
    }
  }

  /** As many roles as files: every file has a role of its own. */
  lemma {:induction false} EveryRoleIsNew(files: seq<ManifestFile>, n: nat, k: nat)
    requires k < n <= |files| && |RolesUpTo(files, n)| == n
    ensures files[k].role !in RolesUpTo(files, k)
  {
    hide RolesUpTo;
    RolesGrow(files, n - 1);
    RolesAreNoMoreThanFiles(files, n - 1);
    if k < n - 1 {
      EveryRoleIsNew(files, n - 1, k);
    }
  }

  lemma {:induction false} NewRolesAreAsManyAsFiles(files: seq<ManifestFile>, n: nat)
    requires n <= |files| && forall k :: 0 <= k < n ==> files[k].role !in RolesUpTo(files, k)
    ensures |RolesUpTo(files, n)| == n
  {
    if n > 0 {
      NewRolesAreAsManyAsFiles(files, n - 1);
      RolesGrow(files, n - 1);
    }
  }

  lemma {:induction false} SizesGrow(files: seq<ManifestFile>, n: nat, m: nat)
    requires n <= m <= |files| && forall i :: 0 <= i < |files| ==> files[i].size > 0
    ensures SizeUpTo(files, n) <= SizeUpTo(files, m)
  {
    if n < m {
      SizesGrow(files, n, m - 1);
    }
  }

  /** Every file of a complete package passes the loop. */
  lemma CompletePackageFits(files: seq<ManifestFile>, roles: set<string>, licensed: bool, n: nat)
    requires CompletePackage(files, roles, licensed) && n < |files|
    ensures FileFits(files, n, roles, licensed)
  {
    hide SoundFile;
    assert files[n].role in RolesUpTo(files, |files|);
    EveryRoleIsNew(files, |files|, n);
    hide RolesUpTo;
  }

  lemma CompletePackageHasRoom(files: seq<ManifestFile>, roles: set<string>, licensed: bool, n: nat)
    requires CompletePackage(files, roles, licensed) && n < |files|
    ensures SizeUpTo(files, n) <= MAX_PACKAGE_BYTES - files[n].size
  {
    hide RolesUpTo, NamesUpTo, DistinctNames, SoundFile;
    forall i | 0 <= i < |files| ensures files[i].size > 0 {
      SoundFilesHaveSize(files[i], licensed);
    }
    SizesGrow(files, n + 1, |files|);
  }

  /** Files that all pass make a complete package as soon as no role is missing. */
  lemma FittingFilesComplete(files: seq<ManifestFile>, roles: set<string>, licensed: bool)
    requires forall n :: 0 <= n < |files| ==> FileFits(files, n, roles, licensed)
    requires TotalSize(files) <= MAX_PACKAGE_BYTES
    ensures CompletePackage(files, roles, licensed) <==> roles <= RolesUpTo(files, |files|)
  {
    hide SoundFile;
    forall k | 0 <= k < |files| ensures files[k].role !in RolesUpTo(files, k) {
      assert FileFits(files, k, roles, licensed);
    }
    NewRolesAreAsManyAsFiles(files, |files|);
    forall i, j | 0 <= i < j < |files| ensures files[i].name != files[j].name {
      assert FileFits(files, j, roles, licensed) && files[i].name in NamesUpTo(files, j);
    }
    forall r | r in RolesUpTo(files, |files|) ensures r in roles {
      var i :| 0 <= i < |files| && files[i].role == r;
      assert FileFits(files, i, roles, licensed);
    }
    if roles <= RolesUpTo(files, |files|) {
      assert RolesUpTo(files, |files|) == roles;
      forall i | 0 <= i < |files| ensures SoundFile(files[i], licensed) {
        assert FileFits(files, i, roles, licensed);
      }
    }
  }

  // ----------------------------------------------------------- validators

  predicate SemanticV1(m: Manifest) {
    && m.packageId != "" && |m.packageId| <= 128 && m.version != "" && |m.version| <= 64
    && m.architecture == PORTABLE && m.licenseId != "" && |m.licenseId| <= 128 && m.contracts == None
    && CompletePackage(m.files, V1_ROLES, false)
  }

  predicate SemanticV2(m: Manifest) {
    && PackageIdText(m.packageId) && VersionText(m.version) && m.architecture == PORTABLE
    && LicenseText(m.licenseId) && m.contracts == Some(SEMANTIC_CONTRACTS)
    && CompletePackage(m.files, V2_ROLES, false)
  }

  predicate FaceV3(m: Manifest) {
    && PackageIdText(m.packageId) && VersionText(m.version) && m.architecture == PORTABLE
    && m.licenseId == "" && m.contracts == Some(FACE_CONTRACTS)
    && CompletePackage(m.files, FACE_ROLES, true)
  }

  predicate ValidManifest(m: Manifest) {
    || (m.formatVersion == 1 && m.purpose == SEMANTIC && SemanticV1(m))
    || (m.formatVersion == 2 && m.purpose == SEMANTIC && SemanticV2(m))
    || (m.formatVersion == 3 && m.purpose == FACE && FaceV3(m))
  }

  /** One pass of the loops: the checks on file `n` and its room in the total. */
  method CheckFile(files: seq<ManifestFile>, n: nat, names: set<string>, unused: bool, total: Int64, licensed: bool)
    returns (ok: bool)
    requires n < |files| && names == NamesUpTo(files, n) && 0 <= total <= MAX_PACKAGE_BYTES
    ensures ok <==> SoundFile(files[n], licensed) && unused && files[n].name !in names
                    && total <= MAX_PACKAGE_BYTES - files[n].size
  {
    var file := files[n];
    if !PlainName(file.name) || file.size <= 0 || !HexSha256(file.sha256)
       || (if licensed then !LicenseText(file.licenseId) else file.licenseId != "")
       || !unused || file.name in names
    {
      return false;
    }
    var room: Int64 := MAX_PACKAGE_BYTES - file.size;
    return total <= room;
  }

  /** The v1 loop: up to sixteen files, each of a known and unused role, and at
      the end every role used, which leaves exactly one file for each. The
      running total stays an int64. */
  method CheckV1Files(files: seq<ManifestFile>, known: set<string>) returns (ok: bool)
    requires 0 < |known| <= MAX_PACKAGE_FILES
    ensures ok <==> CompletePackage(files, known, false)
  {
    hide SoundFile;
    if |files| == 0 || |files| > MAX_PACKAGE_FILES {
      return false;
    }
    var names: set<string>, roles: set<string>, total: Int64 := {}, {}, 0;
    for n := 0 to |files|
      invariant forall i :: 0 <= i < n ==> FileFits(files, i, known, false)
      invariant names == NamesUpTo(files, n) && roles == RolesUpTo(files, n)
      invariant 0 <= total == SizeUpTo(files, n) <= MAX_PACKAGE_BYTES
    {
      var role := files[n].role;
      var fits := CheckFile(files, n, names, role in known && role !in roles, total, false);
      if !fits {
        if CompletePackage(files, known, false) {
          CompletePackageFits(files, known, false, n);
          CompletePackageHasRoom(files, known, false, n);
        }
        return false;
      }
      SoundFilesHaveSize(files[n], false);
      names, roles, total := names + {files[n].name}, roles + {role}, total + files[n].size;
    }
    FittingFilesComplete(files, known, false);
    return known <= roles;
  }

  lemma SoundFilesHaveSize(file: ManifestFile, licensed: bool)
    requires SoundFile(file, licensed)
    ensures file.size > 0 && file.name != ""
  {
    hide PathBase, HexSha256, LicenseText;
  }

  /** The loop of the v2 and face validators: exactly three files, with a flag
      for each required role. */
  method CheckThreeFiles(files: seq<ManifestFile>, roles: set<string>, licensed: bool) returns (ok: bool)
    requires |roles| == 3
    ensures ok <==> CompletePackage(files, roles, licensed)
  {
    hide SoundFile;
    if |files| != 3 {
      return false;
    }
    var required := map r | r in roles :: false;
    var names: set<string>, total: Int64 := {}, 0;
    for n := 0 to |files|
      invariant forall i :: 0 <= i < n ==> FileFits(files, i, roles, licensed)
      invariant names == NamesUpTo(files, n) && required.Keys == roles
      invariant forall r :: r in roles ==> (required[r] <==> r in RolesUpTo(files, n))
      invariant 0 <= total == SizeUpTo(files, n) <= MAX_PACKAGE_BYTES
    {
      var role := files[n].role;
      var fits := CheckFile(files, n, names, role in required && !required[role], total, licensed);
      if !fits || files[n].size > MAX_PACKAGE_BYTES {
        if CompletePackage(files, roles, licensed) {
          CompletePackageFits(files, roles, licensed, n);
          CompletePackageHasRoom(files, roles, licensed, n);
        }
        return false;
      }
      SoundFilesHaveSize(files[n], licensed);
      RolesGrow(files, n);
      names, total := names + {files[n].name}, total + files[n].size;
      required := required[role := true];
    }
    FittingFilesComplete(files, roles, licensed);
    ok := forall r :: r in roles ==> required[r];
  }

  method ValidateManifest(m: Manifest) returns (ok: bool)
    ensures ok <==> ValidManifest(m)
  {
    if m.formatVersion == 1 && m.purpose == SEMANTIC {
      if m.packageId == "" || |m.packageId| > 128 || m.version == "" || |m.version| > 64
         || m.architecture != PORTABLE || m.licenseId == "" || |m.licenseId| > 128 || m.contracts != None
      {
        return false;
      }
      ok := CheckV1Files(m.files, V1_ROLES);
    } else if m.formatVersion == 2 && m.purpose == SEMANTIC {
      if !PackageIdText(m.packageId) || !VersionText(m.version) || m.architecture != PORTABLE
         || !LicenseText(m.licenseId) || m.contracts != Some(SEMANTIC_CONTRACTS)
      {
        return false;
      }
      ok := CheckThreeFiles(m.files, V2_ROLES, false);
    } else if m.formatVersion == 3 && m.purpose == FACE {
      if !PackageIdText(m.packageId) || !VersionText(m.version) || m.architecture != PORTABLE
         || m.licenseId != "" || m.contracts != Some(FACE_CONTRACTS)
      {
        return false;
      }
      ok := CheckThreeFiles(m.files, FACE_ROLES, true);
    } else {
      ok := false;
    }
  }

  lemma CompletePackagesOfThree(files: seq<ManifestFile>, roles: set<string>, licensed: bool)
    requires CompletePackage(files, roles, licensed) && |roles| == 3
    ensures |files| == 3 && DistinctNames(files) && 0 < TotalSize(files) <= MAX_PACKAGE_BYTES
    ensures forall i :: 0 <= i < |files| ==> files[i].name != ""
  {
    hide SoundFile, RolesUpTo;
    forall i | 0 <= i < |files| ensures files[i].size > 0 && files[i].name != "" {
      SoundFilesHaveSize(files[i], licensed);
    }
    SizesGrow(files, 1, 3);
    assert SizeUpTo(files, 1) == SizeUpTo(files, 0) + files[0].size;
  }

  /** Every accepted manifest, also under the v1 cap of sixteen files, has
      exactly three files with distinct names, of 1 byte to 4 GiB in all. */
  lemma ValidManifestsHaveThreeFiles(m: Manifest)
    requires ValidManifest(m)
    ensures |m.files| == 3 && DistinctNames(m.files) && 0 < TotalSize(m.files) <= MAX_PACKAGE_BYTES
    ensures forall i :: 0 <= i < |m.files| ==> m.files[i].name != ""
  {
    hide CompletePackage, PackageIdText, VersionText, LicenseText, DistinctNames;
    if m.formatVersion == 1 {
      assert |V1_ROLES| == 3;
      CompletePackagesOfThree(m.files, V1_ROLES, false);
    } else if m.formatVersion == 2 {
      assert |V2_ROLES| == 3;
      CompletePackagesOfThree(m.files, V2_ROLES, false);
    } else {
      assert |FACE_ROLES| == 3;
      CompletePackagesOfThree(m.files, FACE_ROLES, true);
    }
  }

  // ------------------------------------------------- the accepted manifests

  /** A file's own fields, in plain terms. */
  predicate FileFields(file: ManifestFile) {
    && (|| file.name == "/"
        || (&& 0 < |file.name| <= 255 && '/' !in file.name && '\\' !in file.name && '\0' !in file.name
            && file.name != "." && file.name != ".."))
    && file.size >= 1
    && |file.sha256| == 64
    && forall i :: 0 <= i < 64 ==> '0' <= file.sha256[i] <= '9' || 'a' <= file.sha256[i] <= 'f'
  }

  /** Three files of three roles under three names, of 4 GiB in all. */
  predicate ThreeFiles(files: seq<ManifestFile>, a: string, b: string, c: string) {
    && |files| == 3 && {files[0].role, files[1].role, files[2].role} == {a, b, c}
    && files[0].name != files[1].name && files[1].name != files[2].name && files[0].name != files[2].name
    && files[0].size + files[1].size + files[2].size <= 4 * 1024 * 1024 * 1024
    && FileFields(files[0]) && FileFields(files[1]) && FileFields(files[2])
  }

  lemma SoundFilesExactly(file: ManifestFile, licensed: bool)
    ensures SoundFile(file, licensed) <==>
            FileFields(file) && if licensed then LicenseText(file.licenseId) else file.licenseId == ""
  {
    PlainNamesExactly(file.name);
    hide PlainName, LicenseText;
  }

  lemma CompletePackagesExactly(files: seq<ManifestFile>, a: string, b: string, c: string, licensed: bool)
    requires a != b && b != c && a != c
    ensures CompletePackage(files, {a, b, c}, licensed) <==>
      && ThreeFiles(files, a, b, c)
      && forall i :: 0 <= i < 3 ==> if licensed then LicenseText(files[i].licenseId) else files[i].licenseId == ""
  {
    hide FileFields, LicenseText, SoundFile;
    assert |{a, b, c}| == 3;
    forall i | 0 <= i < |files|
      ensures SoundFile(files[i], licensed) <==>
              FileFields(files[i]) && if licensed then LicenseText(files[i].licenseId) else files[i].licenseId == ""
    {
      SoundFilesExactly(files[i], licensed);
    }
    if |files| == 3 {
      assert RolesUpTo(files, 3) == {files[0].role, files[1].role, files[2].role};
      assert SizeUpTo(files, 0) == 0 && SizeUpTo(files, 1) == files[0].size;
      assert SizeUpTo(files, 2) == files[0].size + files[1].size;
      assert SizeUpTo(files, 3) == files[0].size + files[1].size + files[2].size;
    }
  }

  /** The accepted manifests, format by format and without loops. The v1 cap of
      sixteen files comes to three as well. */
  lemma FirstFormatExactly(m: Manifest)
    requires m.formatVersion == 1
    ensures ValidManifest(m) <==>
      && m.purpose == "semantic_image_text" && m.architecture == "portable-onnx" && m.contracts == None
      && 0 < |m.packageId| <= 128 && 0 < |m.version| <= 64 && 0 < |m.licenseId| <= 128
      && ThreeFiles(m.files, "image_encoder", "text_encoder", "tokenizer")
      && forall i :: 0 <= i < 3 ==> m.files[i].licenseId == ""
  {
    FirstFormatRoles(m.files);
    hide CompletePackage, ThreeFiles, SemanticV2, FaceV3;
  }

  lemma FirstFormatRoles(files: seq<ManifestFile>)
    ensures CompletePackage(files, V1_ROLES, false) <==>
      && ThreeFiles(files, "image_encoder", "text_encoder", "tokenizer")
      && forall i :: 0 <= i < 3 ==> files[i].licenseId == ""
  {
    hide CompletePackage, ThreeFiles;
    assert |"image_encoder"| == 13 && |"text_encoder"| == 12 && |"tokenizer"| == 9;
    CompletePackagesExactly(files, "image_encoder", "text_encoder", "tokenizer", false);
  }

  lemma SecondFormatExactly(m: Manifest)
    requires m.formatVersion == 2
    ensures ValidManifest(m) <==>
      && m.purpose == "semantic_image_text" && m.architecture == "portable-onnx"
      && m.contracts == Some(SEMANTIC_CONTRACTS)
      && PackageIdText(m.packageId) && VersionText(m.version) && LicenseText(m.licenseId)
      && ThreeFiles(m.files, "image_encoder", "text_encoder", "sentencepiece_model")
      && forall i :: 0 <= i < 3 ==> m.files[i].licenseId == ""
  {
    assert |"image_encoder"| == 13 && |"text_encoder"| == 12 && |"sentencepiece_model"| == 19;
    CompletePackagesExactly(m.files, "image_encoder", "text_encoder", "sentencepiece_model", false);
    hide CompletePackage, ThreeFiles, SemanticV1, FaceV3, PackageIdText, VersionText, LicenseText;
  }

  lemma FaceFormatExactly(m: Manifest)
    requires m.formatVersion == 3
    ensures ValidManifest(m) <==>
      && m.purpose == "face_detection_embedding" && m.architecture == "portable-onnx"
      && m.contracts == Some(FACE_CONTRACTS)
      && PackageIdText(m.packageId) && VersionText(m.version) && m.licenseId == ""
      && ThreeFiles(m.files, "face_detector", "face_embedder", "face_threshold_profile")
      && forall i :: 0 <= i < 3 ==> LicenseText(m.files[i].licenseId)
  {
    assert "face_detector"[5] == 'd' && "face_embedder"[5] == 'e' && |"face_threshold_profile"| == 22;
    CompletePackagesExactly(m.files, "face_detector", "face_embedder", "face_threshold_profile", true);
    hide CompletePackage, ThreeFiles, SemanticV1, SemanticV2, PackageIdText, VersionText, LicenseText;
  }

  lemma OtherFormatsAreRefused(m: Manifest)
    requires m.formatVersion < 1 || m.formatVersion > 3
    ensures !ValidManifest(m)
  {
  }
}
