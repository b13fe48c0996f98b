/** Resource names of the form "namespace:path" (Core/Resources/ResourceLocation.h).

    A resource location is an immutable pair of strings, so it is a datatype and its
    members are functions. */
module Resources {

  datatype ResourceLocation = ResourceLocation(ns: string, path: string) {

    /** "namespace:path". */
    function ToString(): (s: string)
      ensures |s| == |ns| + 1 + |path|
      ensures s[..|ns|] == ns && s[|ns|] == ':' && s[|ns| + 1..] == path
    {
      ns + ":" + path
    }

    function GetTexturePath(): (s: string)
      ensures s == "textures/" + GetRawPath()
    {
      "textures/" + ns + "/" + path
    }

    function GetModelPath(): (s: string)
      ensures s == "models/" + GetRawPath()
    {
      "models/" + ns + "/" + path
    }

    function GetSoundPath(): (s: string)
      ensures s == "sounds/" + GetRawPath()
    {
      "sounds/" + ns + "/" + path
    }

    function GetScriptPath(): (s: string)
      ensures s == "scripts/" + GetRawPath()
    {
      "scripts/" + ns + "/" + path
    }

    function GetRawDataPath(): (s: string)
      ensures s == "data/" + GetRawPath()
    {
      "data/" + ns + "/" + path
    }

    /** "namespace/path": the namespace, one slash, the path. */
    function GetRawPath(): (s: string)
      ensures |s| == |ns| + 1 + |path|
      ensures s[..|ns|] == ns && s[|ns|] == '/' && s[|ns| + 1..] == path
    {
      ns + "/" + path
    }

    /** `operator<`: by namespace first, then by path. */
    predicate Less(o: ResourceLocation) {
      StrLess(ns, o.ns) || (ns == o.ns && StrLess(path, o.path))
    }
  }

  const DefaultNamespace := "default"

  /** The one-argument constructor and `FromPath`. */
  function FromPath(p: string): (r: ResourceLocation)
    ensures r.ns == DefaultNamespace && r.path == p
  {
    ResourceLocation(DefaultNamespace, p)
  }

  /** `Empty()`. */
  function Empty(): (r: ResourceLocation)
    ensures r.ns == [] && r.path == []
  {
    ResourceLocation("", "")
  }

  /** `std::string::find(c)`: the first index holding c, if any. */
  function Find(s: string, c: char): (r: int)
    ensures r == -1 <==> c !in s
    ensures r != -1 ==> 0 <= r < |s| && s[r] == c && c !in s[..r]
  {
    if |s| == 0 then -1
    else if s[0] == c then 0
    else
      var k := Find(s[1..], c);
      if k == -1 then -1
      else
        assert s[..k + 1] == [s[0]] + s[1..][..k];
        k + 1
  }

  /** Split at the first ':'; without one, the whole string is a path in the default
      namespace. */
  function FromString(s: string): (r: ResourceLocation)
    ensures ':' !in s ==> r == FromPath(s)
    ensures ':' in s ==> ':' !in r.ns && s == r.ns + ":" + r.path
  {
    var pos := Find(s, ':');
    if pos == -1 then ResourceLocation(DefaultNamespace, s)
    else
      assert s == s[..pos] + ":" + s[pos + 1..];
      ResourceLocation(s[..pos], s[pos + 1..])
  }

  /** Later colons stay in the path. */
  lemma FromStringSplitsAtFirstColon(ns: string, path: string)
    requires ':' !in ns
    ensures FromString(ns + ":" + path) == ResourceLocation(ns, path)
  {
    var s := ns + ":" + path;
    var pos := Find(s, ':');
    assert s[|ns|] == ':';
    assert s[..|ns|] == ns;
    assert pos == |ns|;
    assert s[pos + 1..] == path;
  }

  /** `FromString` inverts `ToString` whenever the namespace holds no ':'. */
  lemma ToStringRoundTrip(r: ResourceLocation)
    requires ':' !in r.ns
    ensures FromString(r.ToString()) == r
  {
    FromStringSplitsAtFirstColon(r.ns, r.path);
  }

  /** A namespace with a ':' does not survive the round trip: the split point moves
      to its first ':'. */
  lemma ColonInNamespaceMoves(r: ResourceLocation)
    requires ':' in r.ns
    ensures FromString(r.ToString()).ns != r.ns
  {
    var s := r.ToString();
    assert ':' in s by {
      assert s[|r.ns|] == ':';
    }
  }

  // ---------------------------------------------------------------------------
  // std::string ordering
  // ---------------------------------------------------------------------------

  /** `std::string::operator<`: lexicographic by character, a proper prefix first. */
  predicate StrLess(a: string, b: string) {
    if |a| == 0 then |b| > 0
    else if |b| == 0 then false
    else a[0] < b[0] || (a[0] == b[0] && StrLess(a[1..], b[1..]))
  }

  lemma {:induction false} StrLessIrreflexive(a: string)
    ensures !StrLess(a, a)
    decreases |a|
  {
    if |a| > 0 {
      StrLessIrreflexive(a[1..]);
    }
  }

  lemma {:induction false} StrLessTransitive(a: string, b: string, c: string)
    requires StrLess(a, b) && StrLess(b, c)
    ensures StrLess(a, c)
    decreases |a|
  {
    if |a| > 0 && a[0] == b[0] && b[0] == c[0] {
      StrLessTransitive(a[1..], b[1..], c[1..]);
    }
  }

  /** Exactly one of a < b, a == b, b < a. */
  lemma {:induction false} StrLessTrichotomy(a: string, b: string)
    ensures StrLess(a, b) || a == b || StrLess(b, a)
    ensures !(StrLess(a, b) && StrLess(b, a))
    decreases |a|
  {
    if |a| > 0 && |b| > 0 && a[0] == b[0] {
      StrLessTrichotomy(a[1..], b[1..]);
      if a[1..] == b[1..] {
        assert a == [a[0]] + a[1..] && b == [b[0]] + b[1..];
      }
    }
  }

  /** `operator<` on resource locations is a strict total order on the pair of
      strings: irreflexive, transitive, and any two different locations are
      ordered one way. */
  lemma LessIsStrictTotalOrder(a: ResourceLocation, b: ResourceLocation, c: ResourceLocation)
    ensures !a.Less(a)
    ensures a.Less(b) && b.Less(c) ==> a.Less(c)
    ensures a.Less(b) || a == b || b.Less(a)
    ensures !(a.Less(b) && b.Less(a))
  {
    StrLessIrreflexive(a.ns);
    StrLessIrreflexive(a.path);
    StrLessTrichotomy(a.ns, b.ns);
    StrLessTrichotomy(a.path, b.path);
    if a.Less(b) && b.Less(c) {
      if StrLess(a.ns, b.ns) && StrLess(b.ns, c.ns) {
        StrLessTransitive(a.ns, b.ns, c.ns);
      }
      if a.ns == b.ns && b.ns == c.ns {
        StrLessTransitive(a.path, b.path, c.path);
      }
    }
  }
}
