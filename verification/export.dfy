/** The loop over published trees: validation, projection, relative URL,
    and the split into exported entries and error lines. */
module Export {
  import opened Php
  import opened Model
  import opened Validation
  import Seqs

  /** The permalink with every occurrence of the site's home URL removed
      (`str_replace(home, '', url)`). */
  function RelativeUrl(home: string, url: string): string {
    StrReplace(home, "", url)
  }

  /** The exported entry of a record that passed validation. */
  function EntryOf(t: Tree, home: string, project: Projection): (e: Entry)
  {
    var p := project(t.easting, t.northing);
    Entry(t.id, t.numero, t.nom, p.lat, p.lng, RelativeUrl(home, t.permalink))
  }

  /** What the loop accumulates: the entries to export and the error lines. */
  datatype Partitioned = Partitioned(results: seq<Entry>, errors: seq<string>)

  /** One pass over the records in input order: a record with a problem adds
      one error line and is skipped; any other record adds one entry. */
  function Partition(trees: seq<Tree>, home: string, project: Projection): (p: Partitioned)
    ensures |p.results| + |p.errors| == |trees|
    ensures forall e :: e in p.results ==> Truthy(e.numero)
    ensures forall i :: 0 <= i < |p.errors| ==> |p.errors[i]| >= 3 && p.errors[i][..3] == "- \""
  {
    if trees == [] then Partitioned([], [])
    else
      var t := trees[0];
      var rest := Partition(trees[1..], home, project);
      if Problems(t) != [] then Partitioned(rest.results, [ErrorOf(t)] + rest.errors)
      else Partitioned([EntryOf(t, home, project)] + rest.results, rest.errors)
  }

  predicate Rejected(t: Tree) {
    !Eligible(t)
  }

  /** Reference definition of the export: the eligible records, in input
      order, each turned into its entry. */
  function EligibleEntries(trees: seq<Tree>, home: string, project: Projection): seq<Entry> {
    Seqs.Map((t: Tree) => EntryOf(t, home, project), Seqs.Filter(Eligible, trees))
  }

  /** Reference definition of the diagnostics: the error lines of the
      rejected records, in input order. */
  function RejectionLines(trees: seq<Tree>): seq<string> {
    Seqs.Map(ErrorOf, Seqs.Filter(Rejected, trees))
  }

  /** The single pass exports exactly the eligible records, in input order. */
  lemma {:induction false} PartitionResultsAreEligibleEntries(trees: seq<Tree>, home: string, project: Projection)
    ensures Partition(trees, home, project).results == EligibleEntries(trees, home, project)
  {
    if trees != [] {
      PartitionResultsAreEligibleEntries(trees[1..], home, project);
    }
  }

  /** The single pass reports exactly the rejected records, in input order. */
  lemma {:induction false} PartitionErrorsAreRejectionLines(trees: seq<Tree>, home: string, project: Projection)
    ensures Partition(trees, home, project).errors == RejectionLines(trees)
  {
    if trees != [] {
      PartitionErrorsAreRejectionLines(trees[1..], home, project);
    }
  }

  /** Every exported entry carries the id, number and name of an eligible
      record, the projection of its coordinates and its relative URL; and
      every eligible record has such an entry. */
  lemma ExportedEntriesMatchEligibleTrees(trees: seq<Tree>, home: string, project: Projection)
    ensures forall e :: e in Partition(trees, home, project).results <==>
      exists t :: t in trees && Eligible(t)
        && e.id == t.id && e.numero == t.numero && e.nom == t.nom
        && e.lat == project(t.easting, t.northing).lat && e.lng == project(t.easting, t.northing).lng
        && e.url == StrReplace(home, "", t.permalink)
  {
    PartitionResultsAreEligibleEntries(trees, home, project);
    var eligible := Seqs.Filter(Eligible, trees);
    var results := Partition(trees, home, project).results;
    forall e | e in results
      ensures exists t :: t in trees && Eligible(t) && e == EntryOf(t, home, project)
    {
      var i :| 0 <= i < |results| && results[i] == e;
      assert eligible[i] in eligible;
    }
    forall t | t in trees && Eligible(t)
      ensures EntryOf(t, home, project) in results
    {
      var j :| 0 <= j < |eligible| && eligible[j] == t;
      assert results[j] == EntryOf(t, home, project);
    }
  }

  /** For a permalink made of the home URL followed by a path that does not
      contain it again, the exported URL is that path. */
  lemma RelativeUrlOfPermalink(home: string, path: string)
    requires home != ""
    requires !Occurs(home, path)
    ensures RelativeUrl(home, home + path) == path
  {
    StrRemovePrefix(home, path);
  }
}
