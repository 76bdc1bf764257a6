/** The knowledge store as a pure transition system over its tables.

    Rows are kept in insertion order. No table loses rows, so AUTOINCREMENT ids are positions plus
    one. Each operation returns the tables it leaves behind: a rejected operation leaves them as
    they were, except where the source commits a conflict record with the rejection. */
module StoreModel {
  import opened Wrappers
  import opened Text

  const KERNEL_WORD_CAP := 2000
  const KERNEL_BYTE_CAP := 24576

  // ---------------------------------------------------------------- tables

  datatype Status = Draft | Active | Superseded

  datatype DocLink = DocLink(relation: string, collection: string, family: string, version: int)

  datatype DocSave = DocSave(
    title: string, status: string, tier: string, triggers: seq<string>, owner: string,
    audience: string, body: string, links: seq<DocLink>, editor: string, base: Option<int>)

  datatype DocRow = DocRow(
    id: nat, collection: string, family: string, version: nat, title: string, status: Status,
    owner: string, audience: string, tier: string, triggers: string, body: string, editor: string)

  datatype LinkRow = LinkRow(docId: nat, position: nat, link: DocLink)

  datatype ReleaseRow = ReleaseRow(id: nat, contentHash: string)

  datatype MemberRow = MemberRow(releaseId: nat, docId: nat, path: string, sha256: string)

  datatype Kind = Edit | Claim | Policy

  datatype Reason =
    | KernelBytes
    | KernelWords
    | ReferenceMissing(link: DocLink)
    | ReferenceNotActive(link: DocLink, status: Status)
    | ReferenceNotReleased(link: DocLink)
    | SupersedesMissing(link: DocLink)
    | SupersedesNotSuperseded(link: DocLink, status: Status)

  /** The `detail` column; the wording of the first two forms is left to the reader. */
  datatype Detail = StaleSave(base: int, current: nat) | LintDetail(reason: Reason) | Note(text: string)

  datatype ConflictRow = ConflictRow(
    id: nat, kind: Kind, resolved: bool, collection: string, family: string,
    otherCollection: string, otherFamily: string, base: int, theirVersion: nat, attempts: nat,
    attempted: Option<DocSave>, detail: Detail, openedBy: string,
    resolvedBy: string, resolution: string, winningVersion: nat)

  datatype HeartbeatRow = HeartbeatRow(releaseId: int, ok: bool, error: string)

  datatype Db = Db(
    docs: seq<DocRow>, links: seq<LinkRow>, releases: seq<ReleaseRow>, members: seq<MemberRow>,
    conflicts: seq<ConflictRow>, resync: set<string>, heartbeats: map<string, HeartbeatRow>)

  const EMPTY: Db := Db([], [], [], [], [], {}, map[])

  /** What no operation changes: the `collections` table (name to `in_release`) and the hash. */
  datatype Config = Config(inRelease: map<string, bool>, hash: string -> Digest)

  datatype ManifestDoc = ManifestDoc(path: string, family: string, version: nat, sha256: string)

  datatype Manifest = Manifest(releaseId: nat, contentHash: string, docs: seq<ManifestDoc>)

  datatype LintError = LintError(collection: string, family: string, version: nat, reason: Reason)

  datatype Failure =
    | Invalid
    | NotFound
    | Conflict
    | EmptyRelease
    | Lint(lint: LintError)
    | Recorded(id: nat, cause: Failure)

  datatype Outcome<T> = Outcome(db: Db, result: Result<T, Failure>)

  // ---------------------------------------------------------------- validation

  predicate HasDotDot(s: string) {
    exists i :: 0 <= i < |s| - 1 && s[i] == '.' && s[i + 1] == '.'
  }

  /** `validateIdent`: what may become a path element. */
  predicate ValidIdent(s: string) {
    && s != "" && s[0] != '.'
    && '/' !in s && '\\' !in s && !HasDotDot(s)
    && forall i :: 0 <= i < |s| ==> ' ' <= s[i] <= '~'
  }

  /** The trigger grammar: what survives a comma join and split. */
  predicate TriggerGrammar<T(==)>(ts: seq<seq<T>>, comma: T) {
    forall t :: t in ts ==> t != [] && comma !in t
  }

  predicate ValidLink(l: DocLink) {
    && (l.relation == "reference" || l.relation == "supersedes")
    && ValidIdent(l.collection) && ValidIdent(l.family) && l.version > 0
  }

  /** `validateDocSave`. */
  predicate ValidSave(s: DocSave) {
    && (s.status == "draft" || s.status == "active")
    && TriggerGrammar(s.triggers, ',')
    && (forall i :: 0 <= i < |s.links| ==> ValidLink(s.links[i]))
    && (forall i, j :: 0 <= i < j < |s.links| ==> s.links[i] != s.links[j])
  }

  // ---------------------------------------------------------------- document queries

  predicate InFamily(d: DocRow, collection: string, family: string) {
    d.collection == collection && d.family == family
  }

  /** `SELECT COALESCE(MAX(version), 0) ... WHERE collection = ? AND family_id = ?`. */
  function MaxVersion(docs: seq<DocRow>, collection: string, family: string): nat {
    if docs == [] then 0
    else
      var rest := MaxVersion(docs[..|docs| - 1], collection, family);
      var d := docs[|docs| - 1];
      if InFamily(d, collection, family) && d.version > rest then d.version else rest
  }

  /** The row with this exact version; (collection, family, version) is UNIQUE. */
  function FindDoc(docs: seq<DocRow>, collection: string, family: string, version: int): Option<DocRow> {
    if docs == [] then None
    else
      var d := docs[|docs| - 1];
      if InFamily(d, collection, family) && d.version == version then Some(d)
      else FindDoc(docs[..|docs| - 1], collection, family, version)
  }

  /** The links a version row owns, in insertion order. */
  function LinksOf(links: seq<LinkRow>, docId: nat): seq<DocLink> {
    if links == [] then []
    else
      var l := links[|links| - 1];
      LinksOf(links[..|links| - 1], docId) + if l.docId == docId then [l.link] else []
  }

  // ---------------------------------------------------------------- saving

  /** `UPDATE doc_versions SET status = 'superseded' WHERE ... AND status = 'active'`. */
  function DemoteRow(d: DocRow, collection: string, family: string): DocRow {
    if InFamily(d, collection, family) && d.status.Active? then d.(status := Superseded) else d
  }

  function Demote(docs: seq<DocRow>, collection: string, family: string): (r: seq<DocRow>)
    ensures |r| == |docs|
    ensures forall i :: 0 <= i < |docs| ==> r[i] == DemoteRow(docs[i], collection, family)
  {
    seq(|docs|, i requires 0 <= i < |docs| => DemoteRow(docs[i], collection, family))
  }

  function NewRow(id: nat, collection: string, family: string, version: nat, s: DocSave): DocRow {
    DocRow(id, collection, family, version, s.title, if s.status == "active" then Active else Draft,
           s.owner, s.audience, s.tier, Join(s.triggers, ','), s.body, s.editor)
  }

  function LinkRows(docId: nat, links: seq<DocLink>): (r: seq<LinkRow>)
    ensures |r| == |links|
    ensures forall i :: 0 <= i < |links| ==> r[i] == LinkRow(docId, i, links[i])
  {
    seq(|links|, i requires 0 <= i < |links| => LinkRow(docId, i, links[i]))
  }

  predicate TargetsItself(s: DocSave, collection: string, family: string, version: nat) {
    exists i :: 0 <= i < |s.links| && s.links[i].collection == collection
                && s.links[i].family == family && s.links[i].version == version
  }

  /** `saveDocTx`: every rejection comes before the first write. */
  function SaveTx(cfg: Config, db: Db, collection: string, family: string, s: DocSave): Outcome<nat> {
    var current := MaxVersion(db.docs, collection, family);
    if collection !in cfg.inRelease then Outcome(db, Err(Invalid))
    else if s.base.Some? && s.base.value != current then Outcome(db, Err(Conflict))
    else if TargetsItself(s, collection, family, current + 1) then Outcome(db, Err(Invalid))
    else
      var docs := if s.status == "active" then Demote(db.docs, collection, family) else db.docs;
      var id := |docs| + 1;
      Outcome(db.(docs := docs + [NewRow(id, collection, family, current + 1, s)],
                  links := db.links + LinkRows(id, s.links)),
              Ok(current + 1))
  }

  /** Position of the open conflict of this kind for this family; the newest if there were several. */
  function OpenAt(rows: seq<ConflictRow>, kind: Kind, collection: string, family: string): (r: Option<nat>)
    ensures r.Some? ==> r.value < |rows| && IsOpenFor(rows[r.value], kind, collection, family)
    ensures r.None? ==> forall i :: 0 <= i < |rows| ==> !IsOpenFor(rows[i], kind, collection, family)
  {
    if rows == [] then None
    else if IsOpenFor(rows[|rows| - 1], kind, collection, family) then Some(|rows| - 1)
    else OpenAt(rows[..|rows| - 1], kind, collection, family)
  }

  predicate IsOpenFor(r: ConflictRow, kind: Kind, collection: string, family: string) {
    r.kind == kind && !r.resolved && r.collection == collection && r.family == family
  }

  function NewConflict(id: nat, kind: Kind, collection: string, family: string, base: int,
                       theirVersion: nat, attempted: Option<DocSave>, detail: Detail, who: string): ConflictRow
  {
    ConflictRow(id, kind, false, collection, family, "", "", base, theirVersion, 1, attempted, detail, who, "", "", 0)
  }

  /** `upsertEditConflictTx`: the open row always shows the latest rejected attempt. */
  function RecordStale(db: Db, collection: string, family: string, s: DocSave): (Db, nat)
    requires s.base.Some?
  {
    var current := MaxVersion(db.docs, collection, family);
    var detail := StaleSave(s.base.value, current);
    match OpenAt(db.conflicts, Edit, collection, family)
    case Some(i) =>
      var row := db.conflicts[i];
      (db.(conflicts := db.conflicts[i := row.(base := s.base.value, theirVersion := current,
                                               attempts := row.attempts + 1, attempted := Some(s),
                                               detail := detail, openedBy := s.editor)]),
       row.id)
    case None =>
      var id := |db.conflicts| + 1;
      (db.(conflicts := db.conflicts + [NewConflict(id, Edit, collection, family, s.base.value, current,
                                                    Some(s), detail, s.editor)]),
       id)
  }

  /** `SaveDoc`. */
  function Save(cfg: Config, db: Db, collection: string, family: string, s: DocSave): Outcome<nat> {
    if !ValidIdent(collection) || !ValidIdent(family) || !ValidSave(s) then Outcome(db, Err(Invalid))
    else
      var o := SaveTx(cfg, db, collection, family, s);
      if o.result == Err(Conflict) && s.base.Some? then
        var (db', id) := RecordStale(db, collection, family, s);
        Outcome(db', Err(Recorded(id, Conflict)))
      else o
  }

  // ---------------------------------------------------------------- release candidate

  predicate InReleaseBearing(cfg: Config, collection: string) {
    collection in cfg.inRelease && cfg.inRelease[collection]
  }

  predicate Selected(cfg: Config, d: DocRow) {
    d.status.Active? && InReleaseBearing(cfg, d.collection)
  }

  function SelectedRows(cfg: Config, docs: seq<DocRow>): seq<DocRow> {
    if docs == [] then []
    else
      var d := docs[|docs| - 1];
      SelectedRows(cfg, docs[..|docs| - 1]) + if Selected(cfg, d) then [d] else []
  }

  predicate KeyLess(a: DocRow, b: DocRow) {
    Less(a.collection, b.collection) || (a.collection == b.collection && Less(a.family, b.family))
  }

  /** `ORDER BY collection, family_id`, as a stable insertion sort. */
  function Sort(rows: seq<DocRow>): seq<DocRow> {
    if rows == [] then [] else Insert(rows[|rows| - 1], Sort(rows[..|rows| - 1]))
  }

  function Insert(d: DocRow, sorted: seq<DocRow>): seq<DocRow> {
    if sorted == [] then [d]
    else if KeyLess(d, sorted[0]) then [d] + sorted
    else [sorted[0]] + Insert(d, sorted[1..])
  }

  function CandidateRows(cfg: Config, docs: seq<DocRow>): seq<DocRow> {
    Sort(SelectedRows(cfg, docs))
  }

  function PathOf(d: DocRow): string {
    d.collection + "/" + d.family + ".md"
  }

  function KernelLint(d: DocRow): Option<Reason> {
    if d.collection != "kernel" then None
    else if |d.body| > KERNEL_BYTE_CAP then Some(KernelBytes)
    else if |Fields(d.body)| > KERNEL_WORD_CAP then Some(KernelWords)
    else None
  }

  function LinkLint(cfg: Config, docs: seq<DocRow>, l: DocLink): Option<Reason> {
    var target := FindDoc(docs, l.collection, l.family, l.version);
    if l.relation == "reference" then
      if target.None? then Some(ReferenceMissing(l))
      else if !target.value.status.Active? then Some(ReferenceNotActive(l, target.value.status))
      else if !InReleaseBearing(cfg, l.collection) then Some(ReferenceNotReleased(l))
      else None
    else if l.relation == "supersedes" then
      if target.None? then Some(SupersedesMissing(l))
      else if !target.value.status.Superseded? then Some(SupersedesNotSuperseded(l, target.value.status))
      else None
    else None
  }

  function LintOf(d: DocRow, reason: Reason): LintError {
    LintError(d.collection, d.family, d.version, reason)
  }

  function FirstKernelLint(rows: seq<DocRow>): Option<LintError> {
    if rows == [] then None
    else
      var lint := KernelLint(rows[0]);
      if lint.Some? then Some(LintOf(rows[0], lint.value)) else FirstKernelLint(rows[1..])
  }

  function FirstOfLinks(cfg: Config, docs: seq<DocRow>, links: seq<DocLink>): Option<Reason> {
    if links == [] then None
    else
      var lint := LinkLint(cfg, docs, links[0]);
      if lint.Some? then lint else FirstOfLinks(cfg, docs, links[1..])
  }

  function FirstLinkLint(cfg: Config, db: Db, rows: seq<DocRow>): Option<LintError> {
    if rows == [] then None
    else
      var lint := FirstOfLinks(cfg, db.docs, LinksOf(db.links, rows[0].id));
      if lint.Some? then Some(LintOf(rows[0], lint.value)) else FirstLinkLint(cfg, db, rows[1..])
  }

  /** A path and the bytes stored under it: a tar entry, or a materialised file. */
  datatype File = File(path: string, body: string)

  function FilesOf(rows: seq<DocRow>): (r: seq<File>)
    ensures |r| == |rows|
    ensures forall i :: 0 <= i < |rows| ==> r[i] == File(PathOf(rows[i]), rows[i].body)
  {
    seq(|rows|, i requires 0 <= i < |rows| => File(PathOf(rows[i]), rows[i].body))
  }

  /** The bytes the content hash covers: path, NUL and raw digest of the body, file by file. */
  function ContentBytes(hash: string -> Digest, files: seq<File>): string {
    if files == [] then ""
    else files[0].path + "\0" + hash(files[0].body) + ContentBytes(hash, files[1..])
  }

  function ContentHash(hash: string -> Digest, files: seq<File>): string {
    HashText(hash(ContentBytes(hash, files)))
  }

  function ManifestDocOf(cfg: Config, d: DocRow): ManifestDoc {
    ManifestDoc(PathOf(d), d.family, d.version, Hex(cfg.hash(d.body)))
  }

  function ManifestDocs(cfg: Config, rows: seq<DocRow>): (r: seq<ManifestDoc>)
    ensures |r| == |rows|
    ensures forall i :: 0 <= i < |rows| ==> r[i] == ManifestDocOf(cfg, rows[i])
  {
    seq(|rows|, i requires 0 <= i < |rows| => ManifestDocOf(cfg, rows[i]))
  }

  /** `releaseCandidate`: kernel caps first, then links, then emptiness. */
  function Candidate(cfg: Config, db: Db): Result<seq<DocRow>, Failure> {
    var rows := CandidateRows(cfg, db.docs);
    var kernel := FirstKernelLint(rows);
    if kernel.Some? then Err(Lint(kernel.value))
    else
      var link := FirstLinkLint(cfg, db, rows);
      if link.Some? then Err(Lint(link.value))
      else if rows == [] then Err(EmptyRelease)
      else Ok(rows)
  }

  function CandidateHash(cfg: Config, rows: seq<DocRow>): string {
    ContentHash(cfg.hash, FilesOf(rows))
  }

  /** `PreviewRelease`: release id 0 and nothing written. */
  function Preview(cfg: Config, db: Db): Result<Manifest, Failure> {
    match Candidate(cfg, db)
    case Err(e) => Err(e)
    case Ok(rows) => Ok(Manifest(0, CandidateHash(cfg, rows), ManifestDocs(cfg, rows)))
  }

  // ---------------------------------------------------------------- cutting

  /** `upsertPolicyConflictTx`. */
  function RecordLint(db: Db, lint: LintError, editor: string): (Db, nat) {
    match OpenAt(db.conflicts, Policy, lint.collection, lint.family)
    case Some(i) =>
      var row := db.conflicts[i];
      (db.(conflicts := db.conflicts[i := row.(theirVersion := lint.version, attempts := row.attempts + 1,
                                               detail := LintDetail(lint.reason), openedBy := editor)]),
       row.id)
    case None =>
      var id := |db.conflicts| + 1;
      (db.(conflicts := db.conflicts + [NewConflict(id, Policy, lint.collection, lint.family, 0, lint.version,
                                                    None, LintDetail(lint.reason), editor)]),
       id)
  }

  function MemberRows(cfg: Config, releaseId: nat, rows: seq<DocRow>): (r: seq<MemberRow>)
    ensures |r| == |rows|
    ensures forall i :: 0 <= i < |rows| ==>
      r[i] == MemberRow(releaseId, rows[i].id, PathOf(rows[i]), Hex(cfg.hash(rows[i].body)))
  {
    seq(|rows|, i requires 0 <= i < |rows| =>
      MemberRow(releaseId, rows[i].id, PathOf(rows[i]), Hex(cfg.hash(rows[i].body))))
  }

  /** `strings.SplitN(path, "/", 2)[0]`. */
  function BeforeSlash(path: string): string {
    if path == "" || path[0] == '/' then "" else [path[0]] + BeforeSlash(path[1..])
  }

  /** The `manifestByCollection` table: (collection, family) to version, later entries winning. */
  function VersionsByFamily(docs: seq<ManifestDoc>): map<(string, string), nat> {
    if docs == [] then map[]
    else
      var d := docs[|docs| - 1];
      VersionsByFamily(docs[..|docs| - 1])[(BeforeSlash(d.path), d.family) := d.version]
  }

  function WinningVersion(docs: seq<ManifestDoc>, collection: string, family: string): nat {
    var versions := VersionsByFamily(docs);
    if (collection, family) in versions then versions[(collection, family)] else 0
  }

  function ClearedBy(releaseId: nat): string {
    "cleared by release " + Decimal(releaseId)
  }

  function ClearRow(r: ConflictRow, m: Manifest, editor: string): ConflictRow {
    if r.kind == Policy && !r.resolved then
      r.(resolved := true, resolvedBy := editor, resolution := ClearedBy(m.releaseId),
         winningVersion := WinningVersion(m.docs, r.collection, r.family))
    else r
  }

  function ClearPolicies(rows: seq<ConflictRow>, m: Manifest, editor: string): (r: seq<ConflictRow>)
    ensures |r| == |rows|
    ensures forall i :: 0 <= i < |rows| ==> r[i] == ClearRow(rows[i], m, editor)
  {
    seq(|rows|, i requires 0 <= i < |rows| => ClearRow(rows[i], m, editor))
  }

  /** `CutRelease`. */
  function Cut(cfg: Config, db: Db, expectedHash: string, editor: string): Outcome<Manifest> {
    match Candidate(cfg, db)
    case Err(e) =>
      if e.Lint? && e.lint.collection != "" then
        var (db', id) := RecordLint(db, e.lint, editor);
        Outcome(db', Err(Recorded(id, e)))
      else Outcome(db, Err(e))
    case Ok(rows) =>
      var hash := CandidateHash(cfg, rows);
      if expectedHash != "" && hash != expectedHash then Outcome(db, Err(Conflict))
      else
        var id := |db.releases| + 1;
        var m := Manifest(id, hash, ManifestDocs(cfg, rows));
        Outcome(db.(releases := db.releases + [ReleaseRow(id, hash)],
                    members := db.members + MemberRows(cfg, id, rows),
                    conflicts := ClearPolicies(db.conflicts, m, editor)),
                Ok(m))
  }

  // ---------------------------------------------------------------- reading releases

  function MembersOf(members: seq<MemberRow>, releaseId: nat): seq<MemberRow> {
    if members == [] then []
    else
      var m := members[|members| - 1];
      MembersOf(members[..|members| - 1], releaseId) + if m.releaseId == releaseId then [m] else []
  }

  /** `release_docs JOIN doc_versions ON id`: member rows with their document rows, sorted. */
  function JoinDocs(docs: seq<DocRow>, members: seq<MemberRow>): seq<DocRow> {
    if members == [] then []
    else
      var m := members[|members| - 1];
      JoinDocs(docs, members[..|members| - 1]) + if 1 <= m.docId <= |docs| then [docs[m.docId - 1]] else []
  }

  /** The stored path and hash of a release's member version. */
  function MemberFor(members: seq<MemberRow>, docId: nat): Option<MemberRow> {
    if members == [] then None
    else if members[0].docId == docId then Some(members[0])
    else MemberFor(members[1..], docId)
  }

  function ManifestRow(members: seq<MemberRow>, d: DocRow): ManifestDoc {
    match MemberFor(members, d.id)
    case Some(m) => ManifestDoc(m.path, d.family, d.version, m.sha256)
    case None => ManifestDoc("", d.family, d.version, "")
  }

  function ManifestRows(members: seq<MemberRow>, rows: seq<DocRow>): (r: seq<ManifestDoc>)
    ensures |r| == |rows|
    ensures forall i :: 0 <= i < |rows| ==> r[i] == ManifestRow(members, rows[i])
  {
    seq(|rows|, i requires 0 <= i < |rows| => ManifestRow(members, rows[i]))
  }

  /** `Release(id)`: the stored manifest, read back by joining and sorting. */
  function ReadRelease(db: Db, id: int): Result<Manifest, Failure> {
    if 1 <= id <= |db.releases| then
      var members := MembersOf(db.members, id);
      Ok(Manifest(id, db.releases[id - 1].contentHash, ManifestRows(members, Sort(JoinDocs(db.docs, members)))))
    else Err(NotFound)
  }

  /** `CurrentRelease`: `WHERE id = (SELECT MAX(id) FROM releases)`. */
  function CurrentRelease(db: Db): Result<Manifest, Failure> {
    ReadRelease(db, |db.releases|)
  }

  /** `SELECT d.body FROM release_docs r JOIN doc_versions d ... WHERE r.path = ?`. */
  function BodyAt(docs: seq<DocRow>, members: seq<MemberRow>, path: string): Option<string> {
    if members == [] then None
    else if members[0].path == path && 1 <= members[0].docId <= |docs| then Some(docs[members[0].docId - 1].body)
    else BodyAt(docs, members[1..], path)
  }

  function ArchiveOf(docs: seq<DocRow>, members: seq<MemberRow>, entries: seq<ManifestDoc>): Result<seq<File>, Failure> {
    if entries == [] then Ok([])
    else
      match BodyAt(docs, members, entries[0].path)
      case None => Err(NotFound)
      case Some(body) =>
        match ArchiveOf(docs, members, entries[1..])
        case Err(e) => Err(e)
        case Ok(rest) => Ok([File(entries[0].path, body)] + rest)
  }

  /** `WriteArchive`: one regular entry per manifest line, in manifest order. */
  function Archive(db: Db, id: int): Result<seq<File>, Failure> {
    match ReadRelease(db, id)
    case Err(e) => Err(e)
    case Ok(m) => ArchiveOf(db.docs, MembersOf(db.members, id), m.docs)
  }

  // ---------------------------------------------------------------- reading documents

  datatype Doc = Doc(row: DocRow, triggers: seq<string>, links: seq<DocLink>)

  /** The stored trigger column decoded: an empty column is no triggers at all. */
  function DecodeTriggers(stored: string): seq<string> {
    if stored == "" then [] else Split(stored, ',')
  }

  /** `GetDoc`: a version that is not positive asks for the latest. */
  function GetDoc(db: Db, collection: string, family: string, version: int): Result<Doc, Failure> {
    if !ValidIdent(collection) || !ValidIdent(family) then Err(Invalid)
    else
      var wanted := if version <= 0 then MaxVersion(db.docs, collection, family) else version;
      match FindDoc(db.docs, collection, family, wanted)
      case None => Err(NotFound)
      case Some(row) => Ok(Doc(row, DecodeTriggers(row.triggers), LinksOf(db.links, row.id)))
  }

  // ---------------------------------------------------------------- conflicts

  predicate PairLess(c1: string, f1: string, c2: string, f2: string) {
    Less(c1, c2) || (c1 == c2 && Less(f1, f2))
  }

  /** `FlagClaimConflict`: the pair is stored with the lesser document first. */
  function Flag(db: Db, collection: string, family: string, otherCollection: string, otherFamily: string,
                detail: string, who: string): Outcome<nat>
  {
    var hasOther := otherCollection != "" || otherFamily != "";
    if !ValidIdent(collection) || !ValidIdent(family) || TrimSpace(detail) == "" then Outcome(db, Err(Invalid))
    else if hasOther && (!ValidIdent(otherCollection) || !ValidIdent(otherFamily)) then Outcome(db, Err(Invalid))
    else if hasOther && otherCollection == collection && otherFamily == family then Outcome(db, Err(Invalid))
    else
      var swap := hasOther && PairLess(otherCollection, otherFamily, collection, family);
      var (c, f, oc, of) := if swap then (otherCollection, otherFamily, collection, family)
                            else (collection, family, otherCollection, otherFamily);
      if OpenAt(db.conflicts, Claim, c, f).Some? then Outcome(db, Err(Conflict))
      else
        var id := |db.conflicts| + 1;
        var theirs := if hasOther then MaxVersion(db.docs, oc, of) else 0;
        var row := NewConflict(id, Claim, c, f, MaxVersion(db.docs, c, f), theirs, None, Note(TrimSpace(detail)), who);
        Outcome(db.(conflicts := db.conflicts + [row.(otherCollection := oc, otherFamily := of)]), Ok(id))
  }

  function ResolvedRow(r: ConflictRow, who: string, resolution: string, winning: nat): ConflictRow {
    r.(resolved := true, resolvedBy := who, resolution := resolution, winningVersion := winning)
  }

  function ResolveAt(db: Db, id: nat, who: string, resolution: string, winning: nat): Outcome<ConflictRow>
    requires 1 <= id <= |db.conflicts|
  {
    var row := ResolvedRow(db.conflicts[id - 1], who, resolution, winning);
    Outcome(db.(conflicts := db.conflicts[id - 1 := row]), Ok(row))
  }

  /** `ResolveConflict`: an optional save and the resolution commit together or not at all. */
  function Resolve(cfg: Config, db: Db, id: int, resolution: string, expectedAttempts: int,
                   save: Option<DocSave>, who: string): Outcome<ConflictRow>
  {
    var text := TrimSpace(resolution);
    if text == "" then Outcome(db, Err(Invalid))
    else if !(1 <= id <= |db.conflicts|) then Outcome(db, Err(NotFound))
    else
      var row := db.conflicts[id - 1];
      if row.resolved then Outcome(db, Err(Conflict))
      else if expectedAttempts >= 0 && expectedAttempts != row.attempts then Outcome(db, Err(Conflict))
      else if save.Some? then
        if row.kind != Edit || !ValidSave(save.value) then Outcome(db, Err(Invalid))
        else
          var o := SaveTx(cfg, db, row.collection, row.family, save.value);
          match o.result
          case Err(e) => Outcome(db, Err(e))
          case Ok(version) => ResolveAt(o.db, id, who, text, version)
      else
        var winning := if row.kind == Policy then 0 else MaxVersion(db.docs, row.collection, row.family);
        ResolveAt(db, id, who, text, winning)
  }

  // ---------------------------------------------------------------- hosts

  /** `Heartbeat`: upserts the host's row; the only operation that clears a flag, and only on ok with
      an ack. */
  function Heartbeat(db: Db, host: string, releaseId: int, ok: bool, error: string, resyncApplied: bool): Outcome<()> {
    if !ValidIdent(host) then Outcome(db, Err(Invalid))
    else
      var seen := db.(heartbeats := db.heartbeats[host := HeartbeatRow(releaseId, ok, error)]);
      Outcome(if ok && resyncApplied then seen.(resync := seen.resync - {host}) else seen, Ok(()))
  }

  function RequestResync(db: Db, host: string): Outcome<()> {
    if !ValidIdent(host) then Outcome(db, Err(Invalid)) else Outcome(db.(resync := db.resync + {host}), Ok(()))
  }

  // ---------------------------------------------------------------- runs

  datatype Op =
    | SaveDoc(collection: string, family: string, save: DocSave)
    | CutRelease(expectedHash: string, editor: string)
    | FlagClaim(collection: string, family: string, otherCollection: string, otherFamily: string, detail: string, who: string)
    | ResolveConflict(id: int, resolution: string, expectedAttempts: int, saved: Option<DocSave>, who: string)
    | Beat(host: string, releaseId: int, ok: bool, error: string, resyncApplied: bool)
    | Resync(host: string)

  datatype SaveEntry = SaveEntry(collection: string, family: string, save: DocSave)

  /** What an operation did, as far as the run laws count it. */
  datatype Event =
    | Saved(entry: SaveEntry)
    | StaleRecorded(entry: SaveEntry, current: nat)
    | Published(manifest: Manifest)
    | LintRecorded(lint: LintError)
    | Flagged(row: nat)
    | Resolved(row: nat, entries: seq<SaveEntry>)
    | Quiet

  datatype Run = Run(db: Db, events: seq<Event>)

  function Step(cfg: Config, db: Db, op: Op): (Db, Event) {
    match op
    case SaveDoc(c, f, s) =>
      var o := Save(cfg, db, c, f, s);
      (o.db, match o.result
             case Ok(_) => Saved(SaveEntry(c, f, s))
             case Err(e) => if e.Recorded? then StaleRecorded(SaveEntry(c, f, s), MaxVersion(db.docs, c, f)) else Quiet)
    case CutRelease(expected, editor) =>
      var o := Cut(cfg, db, expected, editor);
      (o.db, match o.result
             case Ok(m) => Published(m)
             case Err(e) => if e.Recorded? && e.cause.Lint? then LintRecorded(e.cause.lint) else Quiet)
    case FlagClaim(c, f, oc, of, detail, who) =>
      var o := Flag(db, c, f, oc, of, detail, who);
      (o.db, match o.result case Ok(id) => Flagged(id) case Err(_) => Quiet)
    case ResolveConflict(id, text, expected, save, who) =>
      var o := Resolve(cfg, db, id, text, expected, save, who);
      (o.db, match o.result
             case Ok(row) =>
               Resolved(row.id, if save.Some? then [SaveEntry(row.collection, row.family, save.value)] else [])
             case Err(_) => Quiet)
    case Beat(host, id, ok, error, applied) => (Heartbeat(db, host, id, ok, error, applied).db, Quiet)
    case Resync(host) => (RequestResync(db, host).db, Quiet)
  }

  /** The store after serving `ops`, one after the other, from the empty schema. */
  function Exec(cfg: Config, ops: seq<Op>): Run {
    if ops == [] then Run(EMPTY, [])
    else
      var before := Exec(cfg, ops[..|ops| - 1]);
      var (db, event) := Step(cfg, before.db, ops[|ops| - 1]);
      Run(db, before.events + [event])
  }

  lemma ExecSnoc(cfg: Config, ops: seq<Op>, op: Op)
    ensures var before := Exec(cfg, ops); var (db, event) := Step(cfg, before.db, op);
      Exec(cfg, ops + [op]) == Run(db, before.events + [event])
  {
    assert (ops + [op])[..|ops|] == ops;
  }
}
