/**
 * `population_transformer.py`: region names of the Rosstat population rows
 * are cleaned and the rows whose cleaned name is a stored region (or the
 * whole federation) are kept.
 */
module PopulationTransformer {
  import opened Common
  import opened PyStr

  /** One parsed population row. */
  datatype PopulationRecord = PopulationRecord(region: string, population: int, year: int)

  /** The city prefix removed from every name (taken literally, not as a pattern). */
  const CityPrefix: string := "г."

  /** The federation's name as it appears in some tables: a Latin `p` in place of the Cyrillic `р`. */
  const LatinSpelling: string := "Российская Федеpация"

  /** The federation's name with the Cyrillic letter. */
  const FederationName: string := "Российская Федерация"

  /** The three successive rewrites of the `region` column: drop the city prefix, fix the spelling, strip. */
  function CleanName(s: string): string
  {
    Strip(ReplaceAll(ReplaceAll(s, CityPrefix, ""), LatinSpelling, FederationName))
  }

  /** The kept rows, in input order, with their region renamed and then cleaned. */
  function Kept(data: seq<PopulationRecord>, rename: string -> string, existing: set<string>): (r: seq<PopulationRecord>)
    ensures |r| <= |data|
    ensures forall o :: o in r ==> o.region in existing
    ensures forall o :: o in r ==> exists x :: x in data && o == x.(region := CleanName(rename(x.region)))
    ensures forall x :: x in data && CleanName(rename(x.region)) in existing ==> x.(region := CleanName(rename(x.region))) in r
    decreases |data|
  {
    if data == [] then []
    else
      var init, x := data[..|data| - 1], data[|data| - 1];
      assert forall y :: y in data <==> y in init || y == x by {
        assert data == init + [x];
      }
      var name := CleanName(rename(x.region));
      Kept(init, rename, existing) + (if name in existing then [x.(region := name)] else [])
  }

  /** Keeping is done row by row: the rows of a concatenation are the rows of each part, in order. */
  lemma {:induction false} KeptAppend(a: seq<PopulationRecord>, b: seq<PopulationRecord>, rename: string -> string, existing: set<string>)
    ensures Kept(a + b, rename, existing) == Kept(a, rename, existing) + Kept(b, rename, existing)
    decreases |b|
  {
    if b == [] {
      assert a + b == a;
    } else {
      var init := b[..|b| - 1];
      assert (a + b)[..|a + b| - 1] == a + init;
      assert (a + b)[|a + b| - 1] == b[|b| - 1];
      KeptAppend(a, init, rename, existing);
    }
  }

  /** A name free of the city prefix and of the Latin spelling, without surrounding whitespace, is kept as it is. */
  lemma CleanNameOfClean(s: string)
    requires !Contains(s, CityPrefix) && !Contains(s, LatinSpelling)
    requires |s| > 0 ==> !IsSpace(s[0]) && !IsSpace(s[|s| - 1])
    ensures CleanName(s) == s
  {
    ReplaceAllAbsent(s, CityPrefix, "");
    ReplaceAllAbsent(s, LatinSpelling, FederationName);
    StripUntouched(s);
  }

  /** The Latin-p spelling of the federation becomes the Cyrillic one. */
  lemma LatinSpellingFixed()
    ensures CleanName(LatinSpelling) == FederationName
  {
    var s := LatinSpelling;
    assert forall i :: 0 <= i < |s| ==> s[i] != CityPrefix[0];
    ReplaceAllPrefix(s, "", CityPrefix, "");
    assert s + "" == s;
    assert ReplaceAll(s, CityPrefix, "") == s;
    assert StartsWith(s, LatinSpelling);
    assert ReplaceAll(s, LatinSpelling, FederationName) == FederationName + ReplaceAll("", LatinSpelling, FederationName);
    StripUntouched(FederationName);
  }

  /** The city prefix is removed wherever it stands in front of a name. */
  lemma CityPrefixRemoved(s: string)
    requires !Contains(s, CityPrefix) && !Contains(s, LatinSpelling)
    requires |s| > 0 && !IsSpace(s[0]) && !IsSpace(s[|s| - 1])
    ensures CleanName(CityPrefix + s) == s
  {
    assert StartsWith(CityPrefix + s, CityPrefix);
    assert (CityPrefix + s)[|CityPrefix|..] == s;
    assert ReplaceAll(CityPrefix + s, CityPrefix, "") == "" + ReplaceAll(s, CityPrefix, "");
    assert "" + ReplaceAll(s, CityPrefix, "") == ReplaceAll(s, CityPrefix, "");
    CleanNameOfClean(s);
  }

  /** `PopulationTransformer`: the set of names a population row may carry. */
  class PopulationTransformer {
    var existingRegions: set<string>

    /** The stored region names plus the federation constant. */
    constructor (stored: set<string>, russianFederation: string)
      ensures existingRegions == stored + {russianFederation}
    {
      existingRegions := stored;
      existingRegions := existingRegions + {russianFederation};
    }

    /**
     * `run`: rename (an external step), clean, and keep the rows whose name
     * is allowed. A frame built from no rows has no `region` column and
     * raises KeyError.
     */
    method Run(data: seq<PopulationRecord>, rename: string -> string) returns (r: Parsed<seq<PopulationRecord>>)
      ensures data == [] ==> r == Raises(KeyError)
      ensures data != [] ==> r == Returns(Kept(data, rename, existingRegions))
    {
      if data == [] {
        return Raises(KeyError);
      }
      var kept: seq<PopulationRecord> := [];
      var i := 0;
      while i < |data|
        invariant 0 <= i <= |data|
        invariant kept == Kept(data[..i], rename, existingRegions)
      {
        var name := rename(data[i].region);
        name := ReplaceAll(name, CityPrefix, "");
        name := ReplaceAll(name, LatinSpelling, FederationName);
        name := Strip(name);
        if name in existingRegions {
          kept := kept + [data[i].(region := name)];
        }
        assert data[..i + 1][..i] == data[..i];
        i := i + 1;
      }
      assert data[..i] == data;
      return Returns(kept);
    }
  }
}
