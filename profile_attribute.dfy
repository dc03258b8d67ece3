/** The `[Profile(include, exclude)]` attribute: its constructor parses two
    comma-separated lists of profile names once, into `Include` and `Exclude`. */
module ProfileAttribute {
  import opened Wrappers
  import opened Text
  import opened Seqs

  /** A constructed attribute; both lists are always present (never null). */
  datatype Profile = Profile(Include: seq<string>, Exclude: seq<string>)

  /** What a parsed entry looks like: non-empty, trimmed and free of commas. */
  predicate IsEntry(x: string)
  {
    x != "" && IsTrimmed(x) && ',' !in x
  }

  /** One segment under `StringSplitOptions.TrimEntries |
      StringSplitOptions.RemoveEmptyEntries`: trimmed, and dropped when it is
      then empty. */
  function TrimEntry(segment: string): seq<string>
  {
    var t := Trim(segment);
    if t == "" then [] else [t]
  }

  /** The split options applied to every segment, in order. */
  function TrimAndDropEmpty(parts: seq<string>): seq<string>
  {
    FlatMap(TrimEntry, parts)
  }

  /** Every kept segment is an entry, given segments without commas. */
  lemma {:induction false} TrimAndDropEmptyEntries(parts: seq<string>)
    requires forall i :: 0 <= i < |parts| ==> ',' !in parts[i]
    ensures forall i :: 0 <= i < |TrimAndDropEmpty(parts)| ==> IsEntry(TrimAndDropEmpty(parts)[i])
  {
    if parts != [] {
      assert TrimAndDropEmpty(parts) == TrimEntry(parts[0]) + TrimAndDropEmpty(parts[1..]);
      TrimKeepsCharacters(parts[0]);
      TrimIsBlankFramedInfix(parts[0]);
      TrimAndDropEmptyEntries(parts[1..]);
    }
  }

  /** `ParseProfiles`: null yields the empty list; otherwise the trimmed,
      non-empty comma-separated segments. */
  function ParseProfiles(profiles: Option<string>): (r: seq<string>)
    ensures profiles.None? ==> r == []
    ensures forall i :: 0 <= i < |r| ==> IsEntry(r[i])
  {
    match profiles
    case None => []
    case Some(s) =>
      TrimAndDropEmptyEntries(Split(s, ','));
      TrimAndDropEmpty(Split(s, ','))
  }

  /** The attribute's constructor: `Include` comes from the first argument
      only and `Exclude` from the second only. */
  function NewProfile(includeText: Option<string>, excludeText: Option<string>): (p: Profile)
    ensures forall i :: 0 <= i < |p.Include| ==> IsEntry(p.Include[i])
    ensures forall i :: 0 <= i < |p.Exclude| ==> IsEntry(p.Exclude[i])
    ensures includeText.None? ==> p.Include == []
    ensures excludeText.None? ==> p.Exclude == []
  {
    Profile(ParseProfiles(includeText), ParseProfiles(excludeText))
  }

  /** Changing one argument of the constructor leaves the other list as it was. */
  lemma NewProfileArgumentsIndependent(i1: Option<string>, i2: Option<string>, e1: Option<string>, e2: Option<string>)
    ensures NewProfile(i1, e1).Include == NewProfile(i1, e2).Include
    ensures NewProfile(i1, e1).Exclude == NewProfile(i2, e1).Exclude
  {
  }

  /** The split options act on each segment separately. */
  lemma TrimAndDropEmptyConcat(a: seq<string>, b: seq<string>)
    ensures TrimAndDropEmpty(a + b) == TrimAndDropEmpty(a) + TrimAndDropEmpty(b)
  {
    FlatMapConcat(TrimEntry, a, b);
  }

  /** Entries keep their left-to-right order: the entries of `a,b` are those
      of `a` followed by those of `b`. */
  lemma ParseProfilesConcat(a: string, b: string)
    ensures ParseProfiles(Some(a + "," + b)) == ParseProfiles(Some(a)) + ParseProfiles(Some(b))
  {
    SplitConcat(a, b, ',');
    TrimAndDropEmptyConcat(Split(a, ','), Split(b, ','));
  }

  /** A single segment yields its trimmed self, or nothing when it is blank. */
  lemma ParseProfilesSegment(s: string)
    requires ',' !in s
    ensures ParseProfiles(Some(s)) == (if IsBlank(s) then [] else [Trim(s)])
  {
    SplitWithoutSeparator(s, ',');
    TrimEmptyIffBlank(s);
    assert TrimAndDropEmpty([s]) == TrimEntry(s) + FlatMap(TrimEntry, [s][1..]);
  }

  /** Parsing undoes joining: a list of well-formed entries joined with commas
      parses back to itself. */
  lemma {:induction false} ParseProfilesRoundTrip(xs: seq<string>)
    requires forall i :: 0 <= i < |xs| ==> IsEntry(xs[i])
    ensures ParseProfiles(Some(Join(',', xs))) == xs
  {
    if xs != [] {
      SplitJoin(xs, ',');
      TrimAndDropEmptyOfEntries(xs);
    }
  }

  /** Well-formed entries pass the split options unchanged. */
  lemma {:induction false} TrimAndDropEmptyOfEntries(xs: seq<string>)
    requires forall i :: 0 <= i < |xs| ==> IsEntry(xs[i])
    ensures TrimAndDropEmpty(xs) == xs
  {
    if xs != [] {
      TrimOfTrimmed(xs[0]);
      TrimAndDropEmptyOfEntries(xs[1..]);
    }
  }

  /** A single well-formed entry parses to itself. */
  lemma ParseProfilesOfEntry(x: string)
    requires IsEntry(x)
    ensures ParseProfiles(Some(x)) == [x]
  {
    ParseProfilesRoundTrip([x]);
  }

  /** Parsing is idempotent: re-parsing the joined entries changes nothing. */
  lemma ParseProfilesIdempotent(s: Option<string>)
    ensures ParseProfiles(Some(Join(',', ParseProfiles(s)))) == ParseProfiles(s)
  {
    ParseProfilesRoundTrip(ParseProfiles(s));
  }
}
