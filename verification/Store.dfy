/** The store as the object it is: tables updated in place, one operation at a time.

    `history` is the ghost log of every operation served. `Valid()` says the tables are the ones the
    transition system reaches by it, so everything proved about runs holds of every valid store. */
module Store {
  import opened Wrappers
  import opened Text
  import opened StoreModel
  import opened StoreChecks

  class KnowledgeStore {
    const cfg: Config

    var docs: seq<DocRow>
    var links: seq<LinkRow>
    var releases: seq<ReleaseRow>
    var members: seq<MemberRow>
    var conflicts: seq<ConflictRow>
    var resync: set<string>
    var heartbeats: map<string, HeartbeatRow>

    ghost var history: seq<Op>

    ghost function Tables(): Db
      reads this
    {
      Db(docs, links, releases, members, conflicts, resync, heartbeats)
    }

    ghost predicate Valid()
      reads this
    {
      Tables() == Exec(cfg, history).db
    }

    constructor (cfg: Config)
      ensures Valid() && this.cfg == cfg && history == []
    {
      this.cfg := cfg;
      docs, links, releases, members, conflicts := [], [], [], [], [];
      resync, heartbeats := {}, map[];
      history := [];
    }

    // -------------------------------------------------------------- saving

    /** `saveDocTx`. */
    method SaveDocTx(collection: string, family: string, s: DocSave) returns (r: Result<nat, Failure>)
      modifies this`docs, this`links
      ensures var o := SaveTx(cfg, old(Tables()), collection, family, s); Tables() == o.db && r == o.result
    {
      if collection !in cfg.inRelease { return Err(Invalid); }
      var current := MaxVersion(docs, collection, family);
      if s.base.Some? && s.base.value != current { return Err(Conflict); }
      var next := current + 1;
      for i := 0 to |s.links|
        invariant forall k :: 0 <= k < i ==>
          !(s.links[k].collection == collection && s.links[k].family == family && s.links[k].version == next)
      {
        var l := s.links[i];
        if l.collection == collection && l.family == family && l.version == next { return Err(Invalid); }
      }
      assert !TargetsItself(s, collection, family, next);
      if s.status == "active" { docs := Demote(docs, collection, family); }
      var id := |docs| + 1;
      docs := docs + [NewRow(id, collection, family, next, s)];
      ghost var before, rows := links, docs;
      for position := 0 to |s.links|
        invariant docs == rows
        invariant links == before + LinkRows(id, s.links)[..position]
      {
        links := links + [LinkRow(id, position, s.links[position])];
      }
      assert LinkRows(id, s.links)[..|s.links|] == LinkRows(id, s.links);
      return Ok(next);
    }

    /** `upsertEditConflictTx`. */
    method UpsertEditConflict(collection: string, family: string, s: DocSave) returns (id: nat)
      requires s.base.Some?
      modifies this`conflicts
      ensures RecordStale(old(Tables()), collection, family, s) == (Tables(), id)
    {
      var current := MaxVersion(docs, collection, family);
      var existing := OpenAt(conflicts, Edit, collection, family);
      if existing.Some? {
        var row := conflicts[existing.value];
        row := row.(base := s.base.value, theirVersion := current, attempts := row.attempts + 1,
                    attempted := Some(s), detail := StaleSave(s.base.value, current), openedBy := s.editor);
        conflicts := conflicts[existing.value := row];
        return row.id;
      }
      id := |conflicts| + 1;
      conflicts := conflicts + [NewConflict(id, Edit, collection, family, s.base.value, current, Some(s),
                                            StaleSave(s.base.value, current), s.editor)];
    }

    /** `SaveDoc`: the save commits, or a stale one is recorded, or nothing changes. */
    method SaveDoc(collection: string, family: string, s: DocSave) returns (r: Result<nat, Failure>)
      requires Valid()
      modifies this
      ensures Valid() && history == old(history) + [Op.SaveDoc(collection, family, s)]
      ensures var o := Save(cfg, old(Tables()), collection, family, s); Tables() == o.db && r == o.result
    {
      ExecSnoc(cfg, history, Op.SaveDoc(collection, family, s));
      history := history + [Op.SaveDoc(collection, family, s)];
      var cok := ValidateIdent(collection);
      var fok := ValidateIdent(family);
      if !cok || !fok { return Err(Invalid); }
      var sok := ValidateDocSave(s);
      if !sok { return Err(Invalid); }
      r := SaveDocTx(collection, family, s);
      if r == Err(Conflict) && s.base.Some? {
        var id := UpsertEditConflict(collection, family, s);
        r := Err(Recorded(id, Conflict));
      }
    }

    // -------------------------------------------------------------- releasing

    /** `releaseCandidate`: the sorted candidate, linted and hashed. */
    method ReleaseCandidate() returns (r: Result<seq<DocRow>, Failure>, hash: string, lines: seq<ManifestDoc>)
      ensures r == Candidate(cfg, Tables())
      ensures r.Ok? ==> hash == CandidateHash(cfg, r.value) && lines == ManifestDocs(cfg, r.value)
    {
      hash, lines := "", [];
      var rows := CandidateRows(cfg, docs);
      var lint, candidates := CollectCandidates(rows);
      if lint.Some? { return Err(Lint(lint.value)), hash, lines; }
      var link := LintCandidates(candidates);
      if link.Some? { return Err(Lint(link.value)), hash, lines; }
      if |candidates| == 0 { return Err(EmptyRelease), hash, lines; }
      hash, lines := HashCandidates(cfg, candidates);
      r := Ok(candidates);
    }

    method LintCandidates(rows: seq<DocRow>) returns (lint: Option<LintError>)
      ensures lint == FirstLinkLint(cfg, Tables(), rows)
    {
      for k := 0 to |rows|
        invariant FirstLinkLint(cfg, Tables(), rows) == FirstLinkLint(cfg, Tables(), rows[k..])
      {
        assert rows[k..][0] == rows[k] && rows[k..][1..] == rows[k + 1..];
        var reason := LintDocLinks(cfg, docs, LinksOf(links, rows[k].id));
        if reason.Some? { return Some(LintOf(rows[k], reason.value)); }
      }
      assert rows[|rows|..] == [];
      return None;
    }

    /** `PreviewRelease`. */
    method PreviewRelease() returns (r: Result<Manifest, Failure>)
      ensures r == Preview(cfg, Tables())
    {
      var c, hash, lines := ReleaseCandidate();
      r := match c case Err(e) => Err(e) case Ok(_) => Ok(Manifest(0, hash, lines));
    }

    /** `upsertPolicyConflictTx`. */
    method UpsertPolicyConflict(lint: LintError, editor: string) returns (id: nat)
      modifies this`conflicts
      ensures RecordLint(old(Tables()), lint, editor) == (Tables(), id)
    {
      var existing := OpenAt(conflicts, Policy, lint.collection, lint.family);
      if existing.Some? {
        var row := conflicts[existing.value];
        row := row.(theirVersion := lint.version, attempts := row.attempts + 1,
                    detail := LintDetail(lint.reason), openedBy := editor);
        conflicts := conflicts[existing.value := row];
        return row.id;
      }
      id := |conflicts| + 1;
      conflicts := conflicts + [NewConflict(id, Policy, lint.collection, lint.family, 0, lint.version, None,
                                            LintDetail(lint.reason), editor)];
    }

    method InsertMembers(releaseId: nat, rows: seq<DocRow>, lines: seq<ManifestDoc>)
      requires lines == ManifestDocs(cfg, rows)
      modifies this`members
      ensures members == old(members) + MemberRows(cfg, releaseId, rows)
    {
      for i := 0 to |rows|
        invariant members == old(members) + MemberRows(cfg, releaseId, rows)[..i]
      {
        members := members + [MemberRow(releaseId, rows[i].id, PathOf(rows[i]), lines[i].sha256)];
      }
    }

    /** The policy loop of `CutRelease`: collect the open rows, then update them by id. */
    method ResolvePolicies(m: Manifest, editor: string)
      modifies this`conflicts
      ensures conflicts == ClearPolicies(old(conflicts), m, editor)
    {
      var byCollection := IndexManifest(m.docs);
      var policies: seq<nat> := [];
      for k := 0 to |conflicts|
        invariant forall p :: p in policies <==> 0 <= p < k && conflicts[p].kind == Policy && !conflicts[p].resolved
        invariant forall i :: 0 <= i < |policies| ==> policies[i] < k
        invariant forall i, j :: 0 <= i < j < |policies| ==> policies[i] < policies[j]
      {
        if conflicts[k].kind == Policy && !conflicts[k].resolved { policies := policies + [k]; }
      }
      ghost var before := conflicts;
      for n := 0 to |policies|
        invariant |conflicts| == |before|
        invariant forall k :: 0 <= k < |before| ==>
          conflicts[k] == if k in policies[..n] then ClearRow(before[k], m, editor) else before[k]
      {
        var k := policies[n];
        assert k in policies && k !in policies[..n];
        var wv := Lookup(byCollection, conflicts[k].collection, conflicts[k].family);
        conflicts := conflicts[k := conflicts[k].(resolved := true, resolvedBy := editor,
                                                  resolution := ClearedBy(m.releaseId), winningVersion := wv)];
        assert policies[..n + 1] == policies[..n] + [k];
      }
      assert policies[..|policies|] == policies;
    }

    /** `CutRelease`. */
    method CutRelease(expectedHash: string, editor: string) returns (r: Result<Manifest, Failure>)
      requires Valid()
      modifies this
      ensures Valid() && history == old(history) + [Op.CutRelease(expectedHash, editor)]
      ensures var o := Cut(cfg, old(Tables()), expectedHash, editor); Tables() == o.db && r == o.result
    {
      hide Candidate, CandidateHash, MemberRows, ManifestDocs, ClearPolicies, OpenAt;
      ExecSnoc(cfg, history, Op.CutRelease(expectedHash, editor));
      history := history + [Op.CutRelease(expectedHash, editor)];
      var c, hash, lines := ReleaseCandidate();
      if c.Err? {
        if c.error.Lint? && c.error.lint.collection != "" {
          var id := UpsertPolicyConflict(c.error.lint, editor);
          return Err(Recorded(id, c.error));
        }
        return Err(c.error);
      }
      if expectedHash != "" && hash != expectedHash { return Err(Conflict); }
      var id := |releases| + 1;
      releases := releases + [ReleaseRow(id, hash)];
      InsertMembers(id, c.value, lines);
      var m := Manifest(id, hash, lines);
      ResolvePolicies(m, editor);
      return Ok(m);
    }

    // -------------------------------------------------------------- conflicts

    /** `FlagClaimConflict`. */
    method FlagClaimConflict(collection: string, family: string, otherCollection: string, otherFamily: string,
                             detail: string, openedBy: string) returns (r: Result<nat, Failure>)
      requires Valid()
      modifies this
      ensures Valid()
      ensures history == old(history) + [FlagClaim(collection, family, otherCollection, otherFamily, detail, openedBy)]
      ensures var o := Flag(old(Tables()), collection, family, otherCollection, otherFamily, detail, openedBy);
        Tables() == o.db && r == o.result
    {
      ExecSnoc(cfg, history, FlagClaim(collection, family, otherCollection, otherFamily, detail, openedBy));
      history := history + [FlagClaim(collection, family, otherCollection, otherFamily, detail, openedBy)];
      var cok := ValidateIdent(collection);
      var fok := ValidateIdent(family);
      if !cok || !fok { return Err(Invalid); }
      var trimmed := TrimSpace(detail);
      if trimmed == "" { return Err(Invalid); }
      var c, f, oc, of := collection, family, otherCollection, otherFamily;
      var hasOther := oc != "" || of != "";
      if hasOther {
        if oc == "" || of == "" { return Err(Invalid); }
        var ocok := ValidateIdent(oc);
        var ofok := ValidateIdent(of);
        if !ocok || !ofok { return Err(Invalid); }
        if oc == c && of == f { return Err(Invalid); }
        if Less(oc, c) || (oc == c && Less(of, f)) { c, f, oc, of := oc, of, c, f; }
      }
      var base := MaxVersion(docs, c, f);
      var theirs := 0;
      if hasOther { theirs := MaxVersion(docs, oc, of); }
      var existing := OpenAt(conflicts, Claim, c, f);
      if existing.Some? { return Err(Conflict); }
      var id := |conflicts| + 1;
      var row := NewConflict(id, Claim, c, f, base, theirs, None, Note(trimmed), openedBy);
      conflicts := conflicts + [row.(otherCollection := oc, otherFamily := of)];
      return Ok(id);
    }

    /** `ResolveConflict`. */
    method ResolveConflict(id: int, resolution: string, expectedAttempts: int, save: Option<DocSave>, resolvedBy: string)
      returns (r: Result<ConflictRow, Failure>)
      requires Valid()
      modifies this
      ensures Valid()
      ensures history == old(history) + [Op.ResolveConflict(id, resolution, expectedAttempts, save, resolvedBy)]
      ensures var o := Resolve(cfg, old(Tables()), id, resolution, expectedAttempts, save, resolvedBy);
        Tables() == o.db && r == o.result
    {
      ExecSnoc(cfg, history, Op.ResolveConflict(id, resolution, expectedAttempts, save, resolvedBy));
      history := history + [Op.ResolveConflict(id, resolution, expectedAttempts, save, resolvedBy)];
      r := ResolveTx(id, resolution, expectedAttempts, save, resolvedBy);
    }

    method ResolveTx(id: int, resolution: string, expectedAttempts: int, save: Option<DocSave>, resolvedBy: string)
      returns (r: Result<ConflictRow, Failure>)
      modifies this`docs, this`links, this`conflicts
      ensures var o := Resolve(cfg, old(Tables()), id, resolution, expectedAttempts, save, resolvedBy);
        Tables() == o.db && r == o.result
    {
      var text := TrimSpace(resolution);
      if text == "" { return Err(Invalid); }
      if !(1 <= id <= |conflicts|) { return Err(NotFound); }
      var row := conflicts[id - 1];
      if row.resolved { return Err(Conflict); }
      if expectedAttempts >= 0 && expectedAttempts != row.attempts { return Err(Conflict); }
      var winning := 0;
      if save.Some? {
        if row.kind != Edit { return Err(Invalid); }
        var sok := ValidateDocSave(save.value);
        if !sok { return Err(Invalid); }
        var v := SaveDocTx(row.collection, row.family, save.value);
        if v.Err? { return Err(v.error); }
        winning := v.value;
      } else if row.kind != Policy {
        winning := MaxVersion(docs, row.collection, row.family);
      }
      row := ResolvedRow(row, resolvedBy, text, winning);
      conflicts := conflicts[id - 1 := row];
      return Ok(row);
    }

    // -------------------------------------------------------------- hosts

    /** `Heartbeat`. */
    method Heartbeat(host: string, releaseId: int, ok: bool, error: string, resyncApplied: bool) returns (r: Result<(), Failure>)
      requires Valid()
      modifies this`resync, this`heartbeats, this`history
      ensures Valid() && history == old(history) + [Beat(host, releaseId, ok, error, resyncApplied)]
      ensures resync == if ValidIdent(host) && ok && resyncApplied then old(resync) - {host} else old(resync)
      ensures heartbeats == if ValidIdent(host) then old(heartbeats)[host := HeartbeatRow(releaseId, ok, error)] else old(heartbeats)
      ensures r == if ValidIdent(host) then Ok(()) else Err(Invalid)
    {
      ExecSnoc(cfg, history, Beat(host, releaseId, ok, error, resyncApplied));
      history := history + [Beat(host, releaseId, ok, error, resyncApplied)];
      var hok := ValidateIdent(host);
      if !hok { return Err(Invalid); }
      heartbeats := heartbeats[host := HeartbeatRow(releaseId, ok, error)];
      if ok && resyncApplied { resync := resync - {host}; }
      return Ok(());
    }

    /** `RequestResync`. */
    method RequestResync(host: string) returns (r: Result<(), Failure>)
      requires Valid()
      modifies this`resync, this`history
      ensures Valid() && history == old(history) + [Resync(host)]
      ensures resync == if ValidIdent(host) then old(resync) + {host} else old(resync)
      ensures r == if ValidIdent(host) then Ok(()) else Err(Invalid)
    {
      ExecSnoc(cfg, history, Resync(host));
      history := history + [Resync(host)];
      var hok := ValidateIdent(host);
      if !hok { return Err(Invalid); }
      resync := resync + {host};
      return Ok(());
    }

    // -------------------------------------------------------------- reading

    /** `Release`. */
    method Release(id: int) returns (r: Result<Manifest, Failure>)
      ensures r == ReadRelease(Tables(), id)
    {
      if !(1 <= id <= |releases|) { return Err(NotFound); }
      var mine := MembersOf(members, id);
      var rows := Sort(JoinDocs(docs, mine));
      var lines: seq<ManifestDoc> := [];
      for k := 0 to |rows|
        invariant lines == ManifestRows(mine, rows)[..k]
      {
        lines := lines + [ManifestRow(mine, rows[k])];
      }
      assert ManifestRows(mine, rows)[..|rows|] == ManifestRows(mine, rows);
      return Ok(Manifest(id, releases[id - 1].contentHash, lines));
    }

    /** `CurrentRelease`. */
    method CurrentReleaseManifest() returns (r: Result<Manifest, Failure>)
      ensures r == CurrentRelease(Tables())
    {
      r := Release(|releases|);
    }

    /** `WriteArchive`: the entries written, in order. */
    method WriteArchive(id: int) returns (r: Result<seq<File>, Failure>)
      ensures r == Archive(Tables(), id)
    {
      var m := Release(id);
      if m.Err? { return Err(m.error); }
      var mine := MembersOf(members, id);
      var entries := m.value.docs;
      var written: seq<File> := [];
      assert entries[0..] == entries;
      assert ArchiveOf(docs, mine, entries).Ok? ==> written + ArchiveOf(docs, mine, entries).value == ArchiveOf(docs, mine, entries).value;
      for k := 0 to |entries|
        invariant ArchiveOf(docs, mine, entries) ==
          (match ArchiveOf(docs, mine, entries[k..]) case Err(e) => Err(e) case Ok(rest) => Ok(written + rest))
      {
        assert entries[k..][0] == entries[k] && entries[k..][1..] == entries[k + 1..];
        var body := BodyAt(docs, mine, entries[k].path);
        if body.None? { return Err(NotFound); }
        ghost var rest := ArchiveOf(docs, mine, entries[k + 1..]);
        assert rest.Ok? ==> written + ([File(entries[k].path, body.value)] + rest.value) == (written + [File(entries[k].path, body.value)]) + rest.value;
        written := written + [File(entries[k].path, body.value)];
      }
      assert entries[|entries|..] == [];
      assert written + [] == written;
      return Ok(written);
    }

    /** `GetDoc`. */
    method GetDocVersion(collection: string, family: string, version: int) returns (r: Result<Doc, Failure>)
      ensures r == GetDoc(Tables(), collection, family, version)
    {
      var cok := ValidateIdent(collection);
      var fok := ValidateIdent(family);
      if !cok || !fok { return Err(Invalid); }
      var row := FindDoc(docs, collection, family, if version <= 0 then MaxVersion(docs, collection, family) else version);
      if row.None? { return Err(NotFound); }
      var triggers: seq<string> := [];
      if row.value.triggers != "" { triggers := Split(row.value.triggers, ','); }
      return Ok(Doc(row.value, triggers, LinksOf(links, row.value.id)));
    }
  }
}
