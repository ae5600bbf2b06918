/** How an export run and the staleness report fit together. */
module Pipeline {
  import opened Model
  import opened Store
  import opened Validation
  import opened Export
  import opened Generation
  import opened Staleness

  /** Right after a successful run at `now`, trees last edited no later than
      `now` are not reported, so the file is up to date. */
  lemma UpToDateAfterGeneration(trees: seq<Tree>, site: Site, s: StoreState, now: Timestamp,
                                project: Projection, encode: Encoder)
    requires (s.dirExists || s.mkdirSucceeds) && s.writable && s.write.WriteSucceeds?
    requires forall t :: t in trees ==> t.modifiedGmt <= now
    ensures CheckStatus(Generate(trees, site, s, now, project, encode).1.lastGeneration, trees).upToDate
    ensures CheckStatus(Generate(trees, site, s, now, project, encode).1.lastGeneration, trees).modified == []
  {
  }

  /** A tree edited after a successful run is reported, and the file is no
      longer up to date. */
  lemma LaterEditIsReported(trees: seq<Tree>, site: Site, s: StoreState, now: Timestamp,
                            project: Projection, encode: Encoder, edited: Tree)
    requires (s.dirExists || s.mkdirSucceeds) && s.writable && s.write.WriteSucceeds?
    requires edited in trees && edited.modifiedGmt > now
    ensures edited in CheckStatus(Generate(trees, site, s, now, project, encode).1.lastGeneration, trees).modified
    ensures !CheckStatus(Generate(trees, site, s, now, project, encode).1.lastGeneration, trees).upToDate
  {
  }

  // The trees of the scenario below: complete; without easting; without
  // numero and with a zero northing.
  const Complete: Tree := Tree(1, "12", "Chêne", "1700000", "3200000", "/arbre/chene/", 0, 0)
  const NoEasting: Tree := Tree(2, "13", "Érable", "", "3200100", "/arbre/erable/", 0, 0)
  const NoNumeroZeroNorthing: Tree := Tree(3, "", "Tilleul", "1700200", "0", "/arbre/tilleul/", 0, 0)

  lemma NoEastingLine()
    ensures ErrorOf(NoEasting) == "- \"Érable\" : " + MissingEasting
  {
    assert Problems(NoEasting) == [MissingEasting];
  }

  lemma NoNumeroZeroNorthingLine()
    ensures ErrorOf(NoNumeroZeroNorthing) == "- \"Tilleul\" : " + MissingNumero + ", " + MissingNorthing
  {
    assert Problems(NoNumeroZeroNorthing) == [MissingNumero] + [MissingNorthing];
    ErrorLineEndsWithLastProblem("Tilleul", [MissingNumero], MissingNorthing);
  }

  lemma ScenarioPartition(home: string, project: Projection)
    ensures |Partition([Complete, NoEasting, NoNumeroZeroNorthing], home, project).results| == 1
    ensures Partition([Complete, NoEasting, NoNumeroZeroNorthing], home, project).errors
         == [ErrorOf(NoEasting), ErrorOf(NoNumeroZeroNorthing)]
  {
    assert Problems(Complete) == [];
    assert Problems(NoEasting) != [];
    assert Problems(NoNumeroZeroNorthing) != [];
    var last := [NoNumeroZeroNorthing];
    assert last[1..] == [];
    assert Partition(last, home, project) == Partitioned([], [ErrorOf(NoNumeroZeroNorthing)]);
    var two := [NoEasting, NoNumeroZeroNorthing];
    assert two[1..] == last;
    assert Partition(two, home, project).errors == [ErrorOf(NoEasting), ErrorOf(NoNumeroZeroNorthing)];
    var three := [Complete, NoEasting, NoNumeroZeroNorthing];
    assert three[1..] == two;
  }

  /** One complete tree, one without easting, one without numero and with a
      zero northing: one entry is exported and two lines are reported, the
      second naming both problems, separated by ", ". */
  lemma ThreeTreeRun(site: Site, s: StoreState, now: Timestamp, project: Projection, encode: Encoder)
    requires s.dirExists && s.writable && s.write == WriteSucceeds
    ensures Generate([Complete, NoEasting, NoNumeroZeroNorthing], site, s, now, project, encode).0
              == Generated(1, 2, [
                   "- \"Érable\" : " + MissingEasting,
                   "- \"Tilleul\" : " + MissingNumero + ", " + MissingNorthing])
  {
    NoEastingLine();
    NoNumeroZeroNorthingLine();
    ScenarioPartition(site.home, project);
  }
}
