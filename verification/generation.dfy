/** The whole export run: partition the published trees, serialise the
    entries, run the store steps, and answer the operator. */
module Generation {
  import opened Model
  import opened Validation
  import opened Export
  import opened Store
  import Seqs

  /** The host's answers to `home_url()` and `wp_upload_dir()['basedir']`. */
  datatype Site = Site(home: string, uploadBaseDir: string)

  /** The array returned to the admin page: counts and error lines on
      success, one message on failure. */
  datatype Response =
    | Generated(validCount: nat, errorCount: nat, errors: seq<string>)
    | NotGenerated(message: string)

  /** The JSON serialisation of the entries. It is a function, so equal
      entries always give equal bytes. */
  type Encoder = seq<Entry> -> string

  /** One run over the published trees, stored at `now`. */
  function Generate(trees: seq<Tree>, site: Site, s: StoreState, now: Timestamp,
                    project: Projection, encode: Encoder): (r: (Response, StoreState))
    ensures r.0.Generated? <==> (s.dirExists || s.mkdirSucceeds) && s.writable && s.write.WriteSucceeds?
    // Every record lands in exactly one of the two lists.
    ensures r.0.Generated? ==> r.0.validCount + r.0.errorCount == |trees|
    ensures r.0.Generated? ==> r.0.validCount == |Seqs.Filter(Eligible, trees)|
    ensures r.0.Generated? ==> r.0.errors == RejectionLines(trees)
    ensures r.0.Generated? ==>
      r.1.file == Some(encode(EligibleEntries(trees, site.home, project))) && r.1.lastGeneration == Some(now)
    // Each failing step has its own message and the run stops there.
    ensures !s.dirExists && !s.mkdirSucceeds ==>
      r.0 == NotGenerated(Message(CannotCreate(DataDir(site.uploadBaseDir))))
    ensures (s.dirExists || s.mkdirSucceeds) && !s.writable ==>
      r.0 == NotGenerated(Message(NotWritable(DataDir(site.uploadBaseDir))))
    ensures (s.dirExists || s.mkdirSucceeds) && s.writable && !s.write.WriteSucceeds? ==>
      r.0 == NotGenerated(Message(WriteError))
    ensures r.0.NotGenerated? ==> r.1.lastGeneration == s.lastGeneration
  {
    var p := Partition(trees, site.home, project);
    PartitionResultsAreEligibleEntries(trees, site.home, project);
    PartitionErrorsAreRejectionLines(trees, site.home, project);
    var (outcome, s') := StoreExport(encode(p.results), DataDir(site.uploadBaseDir), s, now);
    match outcome
    case Failed(e) => (NotGenerated(Message(e)), s')
    case Stored => (Generated(|p.results|, |p.errors|, p.errors), s')
  }

  /** Regenerating from unchanged trees writes the same file contents, whatever
      state the store was in before each run. */
  lemma RegenerationIsIdempotent(trees: seq<Tree>, site: Site, s1: StoreState, s2: StoreState,
                                 now1: Timestamp, now2: Timestamp, project: Projection, encode: Encoder)
    requires Generate(trees, site, s1, now1, project, encode).0.Generated?
    requires Generate(trees, site, s2, now2, project, encode).0.Generated?
    ensures Generate(trees, site, s1, now1, project, encode).1.file
         == Generate(trees, site, s2, now2, project, encode).1.file
  {
  }

  /** A failed run leaves the recorded generation time, and with it the
      staleness report, as they were. */
  lemma FailedRunKeepsGenerationTime(trees: seq<Tree>, site: Site, s: StoreState, now: Timestamp,
                                     project: Projection, encode: Encoder)
    requires !((s.dirExists || s.mkdirSucceeds) && s.writable && s.write.WriteSucceeds?)
    ensures Generate(trees, site, s, now, project, encode).0.NotGenerated?
    ensures Generate(trees, site, s, now, project, encode).1.lastGeneration == s.lastGeneration
  {
  }
}
