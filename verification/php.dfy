/** The PHP string semantics the export relies on: truthiness of a string,
    `implode` and `str_replace`. */
module Php {

  /** PHP converts a string to `false` exactly when it is "" or "0". */
  predicate Truthy(s: string) {
    s != "" && s != "0"
  }

  /** `implode(sep, parts)`: the parts joined with `sep` between neighbours. */
  function Implode(sep: string, parts: seq<string>): (r: string)
    ensures parts == [] ==> r == ""
    ensures |parts| == 1 ==> r == parts[0]
    ensures |parts| > 0 ==> |parts[0]| <= |r| && r[..|parts[0]|] == parts[0]
  {
    if |parts| == 0 then ""
    else if |parts| == 1 then parts[0]
    else parts[0] + sep + Implode(sep, parts[1..])
  }

  /** Joining from the left agrees with appending the last part after a
      separator, so the last part always ends the joined string. */
  lemma {:induction false} ImplodeSnoc(sep: string, parts: seq<string>, last: string)
    requires |parts| > 0
    ensures Implode(sep, parts + [last]) == Implode(sep, parts) + sep + last
  {
    if |parts| == 1 {
      assert parts + [last] == [parts[0], last];
    } else {
      assert (parts + [last])[1..] == parts[1..] + [last];
      ImplodeSnoc(sep, parts[1..], last);
    }
  }

  /** `sub` starts at index `i` of `s`. */
  predicate OccursAt(sub: string, s: string, i: int) {
    0 <= i && i + |sub| <= |s| && s[i..i + |sub|] == sub
  }

  /** `sub` is a substring of `s`. */
  predicate Occurs(sub: string, s: string) {
    exists i :: 0 <= i <= |s| && OccursAt(sub, s, i)
  }

  /** `str_replace(search, replace, subject)`: every occurrence of `search`,
      scanned left to right without overlap, becomes `replace`; an empty
      `search` leaves the subject unchanged. */
  function StrReplace(search: string, replace: string, subject: string): (r: string)
    ensures search == "" ==> r == subject
    ensures |replace| <= |search| ==> |r| <= |subject|
    decreases |subject|
  {
    if |search| == 0 || |subject| < |search| then subject
    else if subject[..|search|] == search then
      replace + StrReplace(search, replace, subject[|search|..])
    else
      [subject[0]] + StrReplace(search, replace, subject[1..])
  }

  /** A subject that does not contain `search` is returned as it is. */
  lemma {:induction false} StrReplaceNoOccurrence(search: string, replace: string, subject: string)
    ensures !Occurs(search, subject) ==> StrReplace(search, replace, subject) == subject
    decreases |subject|
  {
    if |search| == 0 || |subject| < |search| {
    } else if subject[..|search|] == search {
      assert OccursAt(search, subject, 0);
    } else {
      forall i | 0 <= i <= |subject[1..]| && OccursAt(search, subject[1..], i)
        ensures OccursAt(search, subject, i + 1)
      {
        assert subject[1..][i..i + |search|] == subject[i + 1..i + 1 + |search|];
      }
      StrReplaceNoOccurrence(search, replace, subject[1..]);
    }
  }

  /** Removing a non-empty `search` shortens every subject that contains it. */
  lemma {:induction false} StrRemoveShortens(search: string, subject: string)
    requires search != ""
    requires Occurs(search, subject)
    ensures |StrReplace(search, "", subject)| < |subject|
    decreases |subject|
  {
    var i :| 0 <= i <= |subject| && OccursAt(search, subject, i);
    assert i + |search| <= |subject|;
    if subject[..|search|] == search {
    } else {
      assert i != 0;
      assert subject[1..][i - 1..i - 1 + |search|] == subject[i..i + |search|];
      assert OccursAt(search, subject[1..], i - 1);
      StrRemoveShortens(search, subject[1..]);
    }
  }

  /** Removing a non-empty `search` leaves the subject unchanged exactly when
      the subject does not contain it. */
  lemma StrRemoveUnchangedIff(search: string, subject: string)
    requires search != ""
    ensures StrReplace(search, "", subject) == subject <==> !Occurs(search, subject)
  {
    if Occurs(search, subject) {
      StrRemoveShortens(search, subject);
    } else {
      StrReplaceNoOccurrence(search, "", subject);
    }
  }

  /** Removing `prefix` from `prefix + rest`, where `rest` does not contain
      it, yields exactly `rest`. */
  lemma StrRemovePrefix(prefix: string, rest: string)
    requires prefix != ""
    requires !Occurs(prefix, rest)
    ensures StrReplace(prefix, "", prefix + rest) == rest
  {
    var s := prefix + rest;
    assert s[..|prefix|] == prefix;
    assert s[|prefix|..] == rest;
    StrReplaceNoOccurrence(prefix, "", rest);
  }
}
