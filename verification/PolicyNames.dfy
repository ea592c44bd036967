/** The comma-joined list of policy names that the server keeps for a user, and the two places
    where the controller takes it apart. */
module PolicyNames {
  import opened Outcomes

  /** strings.Split(s, ","). */
  function Split(s: string): (parts: seq<string>)
    ensures parts != []
  {
    if s == "" then [""]
    else
      var rest := Split(s[1..]);
      if s[0] == ',' then [""] + rest else [[s[0]] + rest[0]] + rest[1..]
  }

  function Join(names: seq<string>): string {
    if names == [] then ""
    else if |names| == 1 then names[0]
    else names[0] + "," + Join(names[1..])
  }

  /** Update's reading of the stored string. */
  function Decode(stored: string): seq<string> {
    var parts := Split(stored);
    if parts[0] == "" then [] else parts
  }

  /** Observe's comparison. None is Go's nil slice, which DeepEqual tells from an empty one. */
  predicate EqualPolicies(stored: string, policies: Option<seq<string>>) {
    var parts := Split(stored);
    (if parts[0] == "" then None else Some(parts)) == policies
  }

  predicate CommaFree(names: seq<string>) {
    forall name :: name in names ==> ',' !in name
  }

  lemma {:induction false} SplitOnce(name: string, rest: string)
    requires ',' !in name
    ensures Split(name) == [name]
    ensures Split(name + "," + rest) == [name] + Split(rest)
  {
    if name == "" {
      assert ("" + "," + rest)[1..] == rest;
    } else {
      SplitOnce(name[1..], rest);
      assert name == [name[0]] + name[1..];
      assert (name + "," + rest)[1..] == name[1..] + "," + rest;
      assert ',' !in name[1..];
    }
  }

  /** Splitting undoes joining. */
  lemma {:induction false} SplitOfJoin(names: seq<string>)
    requires names != [] && CommaFree(names)
    ensures Split(Join(names)) == names
  {
    if |names| == 1 {
      SplitOnce(names[0], "");
    } else {
      SplitOfJoin(names[1..]);
      SplitOnce(names[0], Join(names[1..]));
    }
  }

  lemma {:induction false} JoinAfterComma(names: seq<string>)
    requires names != []
    ensures Join([""] + names) == "," + Join(names)
  {
    assert ([""] + names)[1..] == names;
    assert "" + "," == ",";
  }

  lemma {:induction false} JoinPrefixed(c: char, names: seq<string>)
    requires names != []
    ensures Join([[c] + names[0]] + names[1..]) == [c] + Join(names)
  {
    var first, rest := [c] + names[0], names[1..];
    var prefixed := [first] + rest;
    assert prefixed[1..] == rest && prefixed[0] == first;
    if rest != [] {
      assert Join(prefixed) == first + "," + Join(rest);
      assert [c] + (names[0] + "," + Join(rest)) == first + "," + Join(rest);
    }
  }

  /** Joining undoes splitting, and the parts never hold a comma. */
  lemma {:induction false} JoinOfSplit(s: string)
    ensures Join(Split(s)) == s && CommaFree(Split(s))
  {
    if s == "" {
    } else {
      var rest := Split(s[1..]);
      JoinOfSplit(s[1..]);
      assert s == [s[0]] + s[1..];
      if s[0] == ',' {
        JoinAfterComma(rest);
      } else {
        JoinPrefixed(s[0], rest);
      }
    }
  }

  /** Every string is accepted for exactly one list: the comparison with a list holds exactly for
      the comma-join of it, if no name has a comma and the first is not empty; with nil, for the
      empty string and strings that begin with a comma; with an empty list, never. */
  lemma EqualPoliciesIff(stored: string, policies: Option<seq<string>>)
    ensures EqualPolicies(stored, policies) <==>
            match policies
            case None => stored == "" || stored[0] == ','
            case Some(names) => names != [] && CommaFree(names) && names[0] != "" && stored == Join(names)
  {
    JoinOfSplit(stored);
    if policies.Some? && policies.value != [] && CommaFree(policies.value) {
      SplitOfJoin(policies.value);
    }
  }

  /** Update takes a string that is empty or begins with a comma for no policies, and any other for
      the comma-free names that it joins. */
  lemma DecodeAnyString(stored: string)
    ensures Decode(stored) == [] <==> stored == "" || stored[0] == ','
    ensures Decode(stored) != [] ==> Join(Decode(stored)) == stored && CommaFree(Decode(stored))
  {
    JoinOfSplit(stored);
  }

  /** A list of well-formed names is read back as it was stored, the empty one included. */
  lemma DecodeOfJoin(names: seq<string>)
    requires CommaFree(names) && "" !in names
    ensures Decode(Join(names)) == names
  {
    if names != [] {
      SplitOfJoin(names);
      assert names[0] in names;
    }
  }
}
