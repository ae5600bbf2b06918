/** The staleness report shown before regenerating: has any published tree
    changed since the last successful export? */
module Staleness {
  import opened Model
  import Seqs

  /** The report: whether the file is up to date, the trees changed since the
      last generation (in query order), and that generation time. */
  datatype Status = Status(upToDate: bool, modified: seq<Tree>, lastGeneration: Option<Timestamp>)

  /** The trees the plugin's query returns: it compares the site-local
      `post_modified` column strictly against the stored generation time,
      which was taken in GMT. */
  function ModifiedSinceAsWritten(published: seq<Tree>, lastGeneration: Timestamp): (r: seq<Tree>)
    ensures forall t :: t in r <==> t in published && t.modifiedLocal > lastGeneration
  {
    Seqs.Filter((t: Tree) => t.modifiedLocal > lastGeneration, published)
  }

  /** The intended query: compare the GMT modification time, on the same
      clock as the stored generation time. */
  function ModifiedSince(published: seq<Tree>, lastGeneration: Timestamp): (r: seq<Tree>)
    ensures forall t :: t in r <==> t in published && t.modifiedGmt > lastGeneration
  {
    Seqs.Filter((t: Tree) => t.modifiedGmt > lastGeneration, published)
  }

  /** The staleness report for the stored generation time. Never generated:
      not up to date, nothing listed, no time. Otherwise up to date exactly
      when no published tree was modified strictly after that time, and the
      list holds exactly those trees. */
  function CheckStatus(lastGeneration: Option<Timestamp>, published: seq<Tree>): (st: Status)
    ensures lastGeneration.None? ==> st == Status(false, [], None)
    ensures lastGeneration.Some? ==> st.lastGeneration == lastGeneration
    ensures lastGeneration.Some? ==>
      (st.upToDate <==> forall t :: t in published ==> t.modifiedGmt <= lastGeneration.value)
    ensures lastGeneration.Some? ==>
      forall t :: t in st.modified <==> t in published && t.modifiedGmt > lastGeneration.value
    ensures lastGeneration.Some? ==> (st.upToDate <==> st.modified == [])
  {
    match lastGeneration
    case None => Status(false, [], None)
    case Some(g) =>
      var modified := ModifiedSince(published, g);
      assert modified != [] ==> modified[0] in modified;
      Status(modified == [], modified, lastGeneration)
  }

  /** The report as the plugin computes it, with the as-written query.
      Never generated: not up to date, nothing listed, no time. Otherwise up
      to date exactly when no published tree has a site-local modification
      time strictly after the stored GMT time, and the list holds exactly
      those trees. */
  function CheckStatusAsWritten(lastGeneration: Option<Timestamp>, published: seq<Tree>): (st: Status)
    ensures lastGeneration.None? ==> st == Status(false, [], None)
    ensures lastGeneration.Some? ==> st.lastGeneration == lastGeneration
    ensures lastGeneration.Some? ==>
      (st.upToDate <==> forall t :: t in published ==> t.modifiedLocal <= lastGeneration.value)
    ensures lastGeneration.Some? ==>
      forall t :: t in st.modified <==> t in published && t.modifiedLocal > lastGeneration.value
    ensures lastGeneration.Some? ==> (st.upToDate <==> st.modified == [])
  {
    match lastGeneration
    case None => Status(false, [], None)
    case Some(g) =>
      var modified := ModifiedSinceAsWritten(published, g);
      assert modified != [] ==> modified[0] in modified;
      Status(modified == [], modified, lastGeneration)
  }

  /** The site's time zone is two hours ahead of GMT. A tree edited at 10:00
      GMT (12:00 local) and exported at 11:00 GMT is still listed by the
      plugin's query, although the export already contains the edit, so the
      file is reported out of date. The intended query does not list it. */
  lemma AsWrittenListsExportedTree()
    ensures var edited := Tree(7, "7", "Chêne", "1700000", "3200000", "/arbre/chene/", 12 * 3600, 10 * 3600);
            var generated := 11 * 3600;
            && ModifiedSinceAsWritten([edited], generated) == [edited]
            && ModifiedSince([edited], generated) == []
            && !CheckStatusAsWritten(Some(generated), [edited]).upToDate
            && CheckStatus(Some(generated), [edited]).upToDate
  {
    var edited := Tree(7, "7", "Chêne", "1700000", "3200000", "/arbre/chene/", 12 * 3600, 10 * 3600);
    var generated := 11 * 3600;
    assert ModifiedSinceAsWritten([edited], generated) == [edited] by {
      assert [edited][1..] == [];
    }
    assert ModifiedSince([edited], generated) == [] by {
      assert [edited][1..] == [];
    }
  }

  /** The site's time zone is two hours behind GMT. A tree edited at 12:00 GMT
      (10:00 local) after an export at 11:00 GMT is missed by the plugin's
      query, so the file is reported up to date while it is not. */
  lemma AsWrittenMissesLaterEdit()
    ensures var edited := Tree(7, "7", "Chêne", "1700000", "3200000", "/arbre/chene/", 10 * 3600, 12 * 3600);
            var generated := 11 * 3600;
            && ModifiedSinceAsWritten([edited], generated) == []
            && ModifiedSince([edited], generated) == [edited]
            && CheckStatusAsWritten(Some(generated), [edited]).upToDate
            && !CheckStatus(Some(generated), [edited]).upToDate
  {
    var edited := Tree(7, "7", "Chêne", "1700000", "3200000", "/arbre/chene/", 10 * 3600, 12 * 3600);
    assert [edited][1..] == [];
  }
}
