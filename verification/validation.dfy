/** Per-record validation: which required fields are missing, and the error
    line an operator sees for a rejected record. */
module Validation {
  import opened Php
  import opened Model

  const MissingNumero: string := "numéro manquant"
  const MissingEasting: string := "coordonnée est manquante (easting)"
  const MissingNorthing: string := "coordonnée nord manquante (northing)"

  /** The three problem messages, in the order the checks run. */
  const Checks: seq<string> := [MissingNumero, MissingEasting, MissingNorthing]

  /** Position of a problem message in the check order. */
  function Rank(problem: string): nat {
    if problem == MissingNumero then 0
    else if problem == MissingEasting then 1
    else 2
  }

  /** A record is exported when all three required values are PHP-truthy. */
  predicate Eligible(t: Tree) {
    Truthy(t.numero) && Truthy(t.easting) && Truthy(t.northing)
  }

  /** The problems of one record: one message per missing value, each check
      run whatever the earlier ones found, in the order numero, easting,
      northing. */
  function Problems(t: Tree): (ps: seq<string>)
    ensures MissingNumero in ps <==> !Truthy(t.numero)
    ensures MissingEasting in ps <==> !Truthy(t.easting)
    ensures MissingNorthing in ps <==> !Truthy(t.northing)
    ensures forall p :: p in ps ==> p in Checks
    ensures forall i, j :: 0 <= i < j < |ps| ==> Rank(ps[i]) < Rank(ps[j])
    ensures ps == [] <==> Eligible(t)
  {
    (if !Truthy(t.numero) then [MissingNumero] else [])
    + (if !Truthy(t.easting) then [MissingEasting] else [])
    + (if !Truthy(t.northing) then [MissingNorthing] else [])
  }

  /** The line reported for a rejected record: `- "<nom>" : ` followed by its
      problems joined with ", ". */
  function ErrorLine(nom: string, problems: seq<string>): (line: string)
    ensures |line| >= 7 + |nom|
    ensures line[..3] == "- \"" && line[3..3 + |nom|] == nom && line[3 + |nom|..7 + |nom|] == "\" : "
    ensures |problems| == 1 ==> line == "- \"" + nom + "\" : " + problems[0]
    ensures problems != [] ==>
      |line| >= 7 + |nom| + |problems[0]| && line[7 + |nom|..][..|problems[0]|] == problems[0]
  {
    var head := "- \"" + nom + "\" : ";
    assert (head + Implode(", ", problems))[7 + |nom|..] == Implode(", ", problems);
    head + Implode(", ", problems)
  }

  /** The error line of a record (reported only for records that fail a check). */
  function ErrorOf(t: Tree): string
  {
    ErrorLine(t.nom, Problems(t))
  }

  /** A zero coordinate is falsy in PHP, so it is reported as missing. */
  lemma ZeroCoordinateIsMissing(t: Tree)
    requires t.easting == "0"
    ensures !Eligible(t)
    ensures MissingEasting in Problems(t)
  {
  }

  /** Each rejected record's line ends with its last problem, after the
      earlier ones and a ", " separator. */
  lemma ErrorLineEndsWithLastProblem(nom: string, problems: seq<string>, last: string)
    requires problems != []
    ensures ErrorLine(nom, problems + [last])
         == ErrorLine(nom, problems) + ", " + last
  {
    ImplodeSnoc(", ", problems, last);
  }
}
