/** The store's validation, lint and hashing loops, each proved against what it decides. */
module StoreChecks {
  import opened Wrappers
  import opened Text
  import opened StoreModel

  // ---------------------------------------------------------------- identifiers

  /** What makes an identifier, letter by letter. */
  lemma IdentLetters(value: string)
    ensures ValidIdent(value) <==>
            && value != "" && value[0] != '.'
            && (forall c :: c in value ==> ' ' <= c <= '~' && c != '/' && c != '\\')
            && forall i :: 0 <= i < |value| - 1 ==> value[i] != '.' || value[i + 1] != '.'
  {
    assert forall i :: 0 <= i < |value| ==> value[i] in value;
  }

  /** `validateIdent`. */
  method ValidateIdent(value: string) returns (ok: bool)
    ensures ok <==> ValidIdent(value)
    ensures ok <==>
            && value != "" && value[0] != '.'
            && (forall c :: c in value ==> ' ' <= c <= '~' && c != '/' && c != '\\')
            && forall i :: 0 <= i < |value| - 1 ==> value[i] != '.' || value[i + 1] != '.'
  {
    IdentLetters(value);
    if value == "" { return false; }
    if value[0] == '.' { return false; }
    if '/' in value || '\\' in value { return false; }
    if HasDotDot(value) { return false; }
    for k := 0 to |value|
      invariant forall i :: 0 <= i < k ==> ' ' <= value[i] <= '~'
    {
      if value[k] == '\0' || value[k] < ' ' || value[k] == '\U{7F}' { return false; }
      if value[k] > '\U{7F}' { return false; }
    }
    return true;
  }

  // ---------------------------------------------------------------- saves

  /** The duplicate-detection key: relation, collection, family and version with NULs between. */
  function LinkKey(l: DocLink): string {
    l.relation + "\0" + l.collection + "\0" + l.family + "\0" + Decimal(l.version)
  }

  lemma LinkKeySplits(l: DocLink)
    requires ValidLink(l)
    ensures Split(LinkKey(l), '\0') == [l.relation, l.collection, l.family, Decimal(l.version)]
  {
    var parts := [l.relation, l.collection, l.family, Decimal(l.version)];
    DecimalShape(l.version);
    assert '\0' !in l.relation;
    forall p | p in parts ensures '\0' !in p {}
    var tail, tail2 := parts[1..], parts[1..][1..];
    assert tail == [l.collection, l.family, Decimal(l.version)] && tail2 == [l.family, Decimal(l.version)];
    assert tail2[1..] == [Decimal(l.version)];
    assert Join(tail2, '\0') == l.family + ['\0'] + Decimal(l.version);
    assert Join(tail, '\0') == l.collection + ['\0'] + Join(tail2, '\0');
    assert Join(parts, '\0') == l.relation + ['\0'] + Join(tail, '\0');
    assert LinkKey(l) == Join(parts, '\0');
    SplitOfJoin(parts, '\0');
  }

  /** Two valid links share a key only when they are the same link. */
  lemma LinkKeyInjective(a: DocLink, b: DocLink)
    requires ValidLink(a) && ValidLink(b) && LinkKey(a) == LinkKey(b)
    ensures a == b
  {
    LinkKeySplits(a);
    LinkKeySplits(b);
    var s, t := [a.relation, a.collection, a.family, Decimal(a.version)], [b.relation, b.collection, b.family, Decimal(b.version)];
    assert s == t;
    assert s[0] == t[0] && s[1] == t[1] && s[2] == t[2] && s[3] == t[3];
    DecimalInjective(a.version, b.version);
  }

  method ValidateTriggers(triggers: seq<string>) returns (ok: bool)
    ensures ok <==> TriggerGrammar(triggers, ',')
    ensures ok <==> forall i :: 0 <= i < |triggers| ==> triggers[i] != "" && ',' !in triggers[i]
  {
    for k := 0 to |triggers|
      invariant forall i :: 0 <= i < k ==> triggers[i] != "" && ',' !in triggers[i]
    {
      if triggers[k] == "" || ',' in triggers[k] {
        assert triggers[k] in triggers;
        return false;
      }
    }
    return true;
  }

  /** The link loop of `validateDocSave`, with its set of keys seen. */
  method ValidateLinks(links: seq<DocLink>) returns (ok: bool)
    ensures ok <==> (forall i :: 0 <= i < |links| ==> ValidLink(links[i])) && (forall i, j :: 0 <= i < j < |links| ==> links[i] != links[j])
  {
    hide LinkKey, ValidIdent;
    var seenLinks: set<string> := {};
    for k := 0 to |links|
      invariant forall i :: 0 <= i < k ==> ValidLink(links[i])
      invariant forall i, j :: 0 <= i < j < k ==> links[i] != links[j]
      invariant forall key :: key in seenLinks <==> exists i :: 0 <= i < k && LinkKey(links[i]) == key
    {
      var l := links[k];
      if l.relation != "reference" && l.relation != "supersedes" { return false; }
      var cok := ValidateIdent(l.collection);
      var fok := ValidateIdent(l.family);
      if !cok || !fok { return false; }
      if l.version <= 0 { return false; }
      assert ValidLink(l);
      var key := LinkKey(l);
      if key in seenLinks {
        ghost var i :| 0 <= i < k && LinkKey(links[i]) == key;
        LinkKeyInjective(links[i], l);
        return false;
      }
      seenLinks := seenLinks + {key};
    }
    return true;
  }

  /** `validateDocSave`. */
  method ValidateDocSave(s: DocSave) returns (ok: bool)
    ensures ok <==> ValidSave(s)
    ensures ok <==>
            && s.status in {"draft", "active"} && (forall t :: t in s.triggers ==> t != "" && ',' !in t)
            && (forall l :: l in s.links ==>
                  l.relation in {"reference", "supersedes"} && ValidIdent(l.collection) && ValidIdent(l.family) && l.version > 0)
            && (forall i, j :: 0 <= i < |s.links| && 0 <= j < |s.links| && s.links[i] == s.links[j] ==> i == j)
  {
    if s.status != "draft" && s.status != "active" { return false; }
    var tok := ValidateTriggers(s.triggers);
    if !tok { return false; }
    ok := ValidateLinks(s.links);
  }

  // ---------------------------------------------------------------- lints

  /** `lintDocLinksTx`: the first failing link, in position order. */
  method LintDocLinks(cfg: Config, docs: seq<DocRow>, links: seq<DocLink>) returns (reason: Option<Reason>)
    ensures reason == FirstOfLinks(cfg, docs, links)
  {
    for k := 0 to |links|
      invariant FirstOfLinks(cfg, docs, links) == FirstOfLinks(cfg, docs, links[k..])
    {
      var l := links[k];
      assert links[k..][0] == l && links[k..][1..] == links[k + 1..];
      var target := FindDoc(docs, l.collection, l.family, l.version);
      if l.relation == "reference" {
        if target.None? { return Some(ReferenceMissing(l)); }
        if !target.value.status.Active? { return Some(ReferenceNotActive(l, target.value.status)); }
        if !InReleaseBearing(cfg, l.collection) { return Some(ReferenceNotReleased(l)); }
      } else if l.relation == "supersedes" {
        if target.None? { return Some(SupersedesMissing(l)); }
        if !target.value.status.Superseded? { return Some(SupersedesNotSuperseded(l, target.value.status)); }
      }
    }
    assert links[|links|..] == [];
    return None;
  }

  /** The first loop of `releaseCandidate`: kernel caps while collecting the rows. */
  method CollectCandidates(rows: seq<DocRow>) returns (lint: Option<LintError>, docs: seq<DocRow>)
    ensures lint == FirstKernelLint(rows)
    ensures lint.None? ==> docs == rows
  {
    docs := [];
    for k := 0 to |rows|
      invariant FirstKernelLint(rows) == FirstKernelLint(rows[k..])
      invariant docs == rows[..k]
    {
      var d := rows[k];
      assert rows[k..][0] == d && rows[k..][1..] == rows[k + 1..];
      if d.collection == "kernel" {
        if |d.body| > KERNEL_BYTE_CAP { return Some(LintOf(d, KernelBytes)), docs; }
        if |Fields(d.body)| > KERNEL_WORD_CAP { return Some(LintOf(d, KernelWords)), docs; }
      }
      docs := docs + [d];
    }
    assert rows[|rows|..] == [] && rows[..|rows|] == rows;
    lint := None;
  }

  // ---------------------------------------------------------------- hashing

  lemma {:induction false} ContentBytesSnoc(hash: string -> Digest, files: seq<File>, f: File)
    ensures ContentBytes(hash, files + [f]) == ContentBytes(hash, files) + (f.path + "\0" + hash(f.body))
  {
    if files == [] {
      assert files + [f] == [f] && [f][1..] == [];
    } else {
      assert (files + [f])[1..] == files[1..] + [f];
      ContentBytesSnoc(hash, files[1..], f);
    }
  }

  /** The hashing loop of `releaseCandidate`: the manifest lines and the running content bytes. */
  method HashCandidates(cfg: Config, rows: seq<DocRow>) returns (contentHash: string, docs: seq<ManifestDoc>)
    ensures contentHash == CandidateHash(cfg, rows)
    ensures docs == ManifestDocs(cfg, rows)
  {
    var content := "";
    docs := [];
    for k := 0 to |rows|
      invariant content == ContentBytes(cfg.hash, FilesOf(rows[..k]))
      invariant docs == ManifestDocs(cfg, rows[..k])
    {
      var d := rows[k];
      var docSum := cfg.hash(d.body);
      assert rows[..k + 1] == rows[..k] + [d];
      assert FilesOf(rows[..k + 1]) == FilesOf(rows[..k]) + [File(PathOf(d), d.body)];
      ContentBytesSnoc(cfg.hash, FilesOf(rows[..k]), File(PathOf(d), d.body));
      content := content + (PathOf(d) + "\0" + docSum);
      docs := docs + [ManifestDoc(PathOf(d), d.family, d.version, Hex(docSum))];
    }
    assert rows[..|rows|] == rows;
    contentHash := HashText(cfg.hash(content));
  }

  // ---------------------------------------------------------------- clearing

  /** The `manifestByCollection` loop: nested maps by collection and family. */
  method IndexManifest(docs: seq<ManifestDoc>) returns (byCollection: map<string, map<string, nat>>)
    ensures forall c, f :: (c in byCollection && f in byCollection[c]) <==> (c, f) in VersionsByFamily(docs)
    ensures forall c, f :: (c, f) in VersionsByFamily(docs) ==> byCollection[c][f] == VersionsByFamily(docs)[(c, f)]
  {
    byCollection := map[];
    for k := 0 to |docs|
      invariant forall c, f :: (c in byCollection && f in byCollection[c]) <==> (c, f) in VersionsByFamily(docs[..k])
      invariant forall c, f :: (c, f) in VersionsByFamily(docs[..k]) ==> byCollection[c][f] == VersionsByFamily(docs[..k])[(c, f)]
    {
      var d := docs[k];
      assert docs[..k + 1][..k] == docs[..k];
      var col := BeforeSlash(d.path);
      if col !in byCollection { byCollection := byCollection[col := map[]]; }
      var families: map<string, nat> := byCollection[col];
      families := families[d.family := d.version];
      byCollection := byCollection[col := families];
    }
    assert docs[..|docs|] == docs;
  }

  function Lookup(byCollection: map<string, map<string, nat>>, collection: string, family: string): nat {
    if collection in byCollection && family in byCollection[collection] then byCollection[collection][family] else 0
  }
}
