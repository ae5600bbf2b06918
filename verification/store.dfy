/** The ordered store steps: create the data directory if absent, check it
    is writable, write the file, then record the generation time. */
module Store {
  import opened Model

  /** What `file_put_contents` does on this host: succeed, fail before
      touching the file, or fail after truncating it to `residue`. */
  datatype WriteBehaviour = WriteSucceeds | WriteFailsUntouched | WriteFailsTruncated(residue: string)

  /** The part of the file system and option table the export touches.
      `mkdirSucceeds`, `writable` and `write` say how the host answers the
      corresponding calls; `file` is `carte-data/arbres.json`; and
      `lastGeneration` is the option `carte_arbres_derniere_generation`. */
  datatype StoreState = StoreState(
    dirExists: bool,
    mkdirSucceeds: bool,
    writable: bool,
    write: WriteBehaviour,
    file: Option<string>,
    lastGeneration: Option<Timestamp>)

  /** The store step that stopped the run. */
  datatype StoreError = CannotCreate(dir: string) | NotWritable(dir: string) | WriteError

  datatype StoreResult = Stored | Failed(error: StoreError)

  // The two longer messages are written in pieces so the verifier can read
  // their characters.
  const CannotCreatePrefix: string := "❌ Impossible de créer le dossier" + " : "
  const NotWritablePrefix: string := "❌ Le dossier n’est pas accessible" + " en écriture : "
  const WriteErrorMessage: string := "❌ Erreur lors de l’écriture du fichier."

  /** The data directory under the upload base directory. */
  function DataDir(baseDir: string): string {
    baseDir + "/carte-data"
  }

  /** The message returned to the operator for each failing step. */
  function Message(e: StoreError): string {
    match e
    case CannotCreate(dir) => CannotCreatePrefix + dir
    case NotWritable(dir) => NotWritablePrefix + dir
    case WriteError => WriteErrorMessage
  }

  /** The character after "❌ " differs for each failing step. */
  lemma MessageThirdChar(e: StoreError)
    ensures |Message(e)| > 2
    ensures Message(e)[2] == (if e.CannotCreate? then 'I' else if e.NotWritable? then 'L' else 'E')
  {
    assert CannotCreatePrefix[2] == 'I';
    assert NotWritablePrefix[2] == 'L';
    assert WriteErrorMessage[2] == 'E';
  }

  /** Distinct failures produce distinct messages, so the message names the
      step that failed (and the directory it concerned). */
  lemma MessageInjective(e1: StoreError, e2: StoreError)
    requires Message(e1) == Message(e2)
    ensures e1 == e2
  {
    match (e1, e2)
    case (CannotCreate(d1), CannotCreate(d2)) =>
      assert (CannotCreatePrefix + d1)[|CannotCreatePrefix|..] == d1;
      assert (CannotCreatePrefix + d2)[|CannotCreatePrefix|..] == d2;
    case (NotWritable(d1), NotWritable(d2)) =>
      assert (NotWritablePrefix + d1)[|NotWritablePrefix|..] == d1;
      assert (NotWritablePrefix + d2)[|NotWritablePrefix|..] == d2;
    case (WriteError, WriteError) =>
    case _ =>
      MessageThirdChar(e1);
      MessageThirdChar(e2);
      assert false;
  }

  /** Runs the store steps in order; the first failing step returns its error
      and skips every later step. Only a successful write records `now`. */
  function StoreExport(json: string, dir: string, s: StoreState, now: Timestamp): (r: (StoreResult, StoreState))
    ensures r.0 == Failed(CannotCreate(dir)) <==> !s.dirExists && !s.mkdirSucceeds
    ensures r.0 == Failed(NotWritable(dir)) <==> (s.dirExists || s.mkdirSucceeds) && !s.writable
    ensures r.0 == Failed(WriteError)
        <==> (s.dirExists || s.mkdirSucceeds) && s.writable && !s.write.WriteSucceeds?
    ensures r.0 == Stored <==> (s.dirExists || s.mkdirSucceeds) && s.writable && s.write.WriteSucceeds?
    // The directory exists afterwards exactly when it existed or was created.
    ensures r.1.dirExists == (s.dirExists || s.mkdirSucceeds)
    ensures r.1.mkdirSucceeds == s.mkdirSucceeds && r.1.writable == s.writable && r.1.write == s.write
    // A failure never records a generation time.
    ensures r.0.Failed? ==> r.1.lastGeneration == s.lastGeneration
    // Failing before the write leaves the file as it was; so does a write
    // that fails before touching it.
    ensures r.0.Failed? && (r.0.error != WriteError || s.write.WriteFailsUntouched?) ==> r.1.file == s.file
    ensures r.0.Failed? && s.write.WriteFailsTruncated? && r.0.error == WriteError
        ==> r.1.file == Some(s.write.residue)
    ensures r.0 == Stored ==> r.1.file == Some(json) && r.1.lastGeneration == Some(now)
  {
    if !s.dirExists && !s.mkdirSucceeds then (Failed(CannotCreate(dir)), s)
    else
      var s1 := s.(dirExists := true);
      if !s1.writable then (Failed(NotWritable(dir)), s1)
      else
        match s1.write
        case WriteFailsUntouched => (Failed(WriteError), s1)
        case WriteFailsTruncated(residue) => (Failed(WriteError), s1.(file := Some(residue)))
        case WriteSucceeds => (Stored, s1.(file := Some(json), lastGeneration := Some(now)))
  }
}
