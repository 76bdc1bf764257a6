/** What holds of the store object at any moment between operations. */
module StorePromises {
  import opened StoreModel
  import opened StoreLog
  import opened StoreLedger
  import opened StoreReleases
  import opened Store

  /** A valid store's documents and links are the log's, its ledger is well formed with its attempts
      accounted for, and each of its releases is ordered, closed and self-verifying. */
  lemma ValidStoreKeepsPromises(st: KnowledgeStore, kind: Kind)
    requires st.Valid()
    ensures var events := Exec(st.cfg, st.history).events;
      && st.docs == Table(Log(events)) && st.links == LinkTable(Log(events))
      && WellFormed(st.conflicts) && Attempts(st.conflicts, kind) == Recordings(events, kind)
      && AllReleasesOk(st.cfg, st.Tables())
  {
    hide AllReleasesOk, WellFormed, Table, LinkTable, Exec;
    TablesRefineLog(st.cfg, st.history);
    AttemptsAreConserved(st.cfg, st.history, kind);
    ReleasesAreSound(st.cfg, st.history);
  }
}
