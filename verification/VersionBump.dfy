/** The version number a set of changes calls for. */
module VersionBump {
  import opened Common
  import opened SpecModel
  import opened SchemaVersions

  /** 0 = PATCH, 1 = MINOR, 2 = MAJOR. */
  function BumpLevel(c: Change): int {
    if c.breaking then 2
    else if c.kind in {DescriptionOnly, MetadataOnly, DestinationsModified, PropertyPriorityChanged} then 0
    else 1
  }

  /** The highest level any change needs. */
  ghost predicate NeedsLevel(changes: seq<Change>, level: int) {
    && 0 <= level <= 2
    && (forall c :: c in changes ==> BumpLevel(c) <= level)
    && (level > 0 ==> exists c :: c in changes && BumpLevel(c) == level)
  }

  lemma LevelIsUnique(changes: seq<Change>, level: int)
    requires NeedsLevel(changes, level)
    ensures forall other :: NeedsLevel(changes, other) ==> other == level
  {
  }

  lemma LevelExists(changes: seq<Change>)
    ensures exists level :: NeedsLevel(changes, level)
  {
    if c :| c in changes && BumpLevel(c) == 2 {
      assert NeedsLevel(changes, 2);
    } else if c :| c in changes && BumpLevel(c) == 1 {
      assert NeedsLevel(changes, 1);
    } else {
      assert NeedsLevel(changes, 0);
    }
  }

  /** The one level a list of changes needs. */
  ghost function Level(changes: seq<Change>): (level: int)
    ensures NeedsLevel(changes, level)
  {
    LevelExists(changes);
    var level :| NeedsLevel(changes, level);
    level
  }

  method MaxLevel(changes: seq<Change>) returns (level: int)
    ensures level == Level(changes)
  {
    level := 0;
    for i := 0 to |changes|
      invariant 0 <= level <= 2
      invariant forall c :: c in changes[..i] ==> BumpLevel(c) <= level
      invariant level > 0 ==> exists c :: c in changes && BumpLevel(c) == level
    {
      if BumpLevel(changes[i]) > level {
        level := BumpLevel(changes[i]);
      }
    }
    LevelIsUnique(changes, level);
  }

  /** The version numbers each level leads to; components are Go ints. */
  function Bumped(from: SchemaVer, level: int): SchemaVer {
    if level == 2 then
      SchemaVer(Wrap(from.major + 1), 0, 0, PrintInt(Wrap(from.major + 1)) + "-0-0")
    else if level == 1 then
      SchemaVer(from.major, Wrap(from.minor + 1), 0, PrintInt(from.major) + "-" + PrintInt(Wrap(from.minor + 1)) + "-0")
    else
      SchemaVer(from.major, from.minor, Wrap(from.patch + 1), PrintTriple(from.major, from.minor, Wrap(from.patch + 1)))
  }

  method SuggestVersion(from: SchemaVer, changes: seq<Change>) returns (v: SchemaVer)
    ensures v == Bumped(from, Level(changes))
  {
    if |changes| == 0 {
      return Bumped(from, 0);
    }
    var level := MaxLevel(changes);
    return Bumped(from, level);
  }

  datatype BumpError = InvalidFrom | InvalidTo | NotIncreasing | Insufficient(declared: int, needed: int)

  /** The level a version jump declares. */
  function DeclaredLevel(from: SchemaVer, to: SchemaVer): int {
    if to.major > from.major then 2 else if to.minor > from.minor then 1 else 0
  }

  method ValidateVersionBump(from: string, to: string, changes: seq<Change>) returns (error: Option<BumpError>)
    ensures error == Some(InvalidFrom) <==> Parse(from).None?
    ensures error == Some(InvalidTo) <==> Parse(from).Some? && Parse(to).None?
    ensures error == Some(NotIncreasing) <==>
      Parse(from).Some? && Parse(to).Some? && Compare(Parse(to).value, Parse(from).value) <= 0
    ensures error.Some? && error.value.Insufficient? ==>
      error.value.declared == DeclaredLevel(Parse(from).value, Parse(to).value) < error.value.needed == Level(changes)
    ensures error.None? <==> Accepted(from, to, changes)
  {
    var fromVer := Parse(from);
    if fromVer.None? {
      return Some(InvalidFrom);
    }
    var toVer := Parse(to);
    if toVer.None? {
      return Some(InvalidTo);
    }
    if Compare(toVer.value, fromVer.value) <= 0 {
      return Some(NotIncreasing);
    }
    if |changes| == 0 {
      return None;
    }
    var needed := MaxLevel(changes);
    var declared := DeclaredLevel(fromVer.value, toVer.value);
    if declared < needed {
      return Some(Insufficient(declared, needed));
    }
    return None;
  }

  /** The rule the validator enforces: a strict increase that declares at least the
      level the changes need. */
  ghost predicate Accepted(from: string, to: string, changes: seq<Change>) {
    && Parse(from).Some? && Parse(to).Some?
    && Compare(Parse(to).value, Parse(from).value) > 0
    && DeclaredLevel(Parse(from).value, Parse(to).value) >= Level(changes)
  }

  // ------------------------------------------------------------------ theorems

  /** Whether the component a level increments has room for it. */
  ghost predicate HasRoom(from: SchemaVer, level: int) {
    if level == 2 then from.major < MAX_INT else if level == 1 then from.minor < MAX_INT else from.patch < MAX_INT
  }

  lemma BumpedIsPrinted(from: SchemaVer, level: int)
    requires InRange(from) && 0 <= level <= 2 && HasRoom(from, level)
    ensures var v := Bumped(from, level); Parse(v.raw) == Some(v) && InRange(v)
  {
    var v := Bumped(from, level);
    assert PrintInt(0) == "0";
    assert v.raw == PrintTriple(v.major, v.minor, v.patch);
    ParsePrinted(v.major, v.minor, v.patch, "");
    assert PrintTriple(v.major, v.minor, v.patch) + "" == v.raw;
  }

  lemma MajorOverflow(huge: string)
    requires '-' !in huge
    ensures |SplitDash("-" + huge + "-0-0")| == 4
  {
    assert "-" + huge + "-0-0" == "" + "-" + (huge + "-" + ("0" + "-" + "0"));
    SplitFirst("", huge + "-" + ("0" + "-" + "0"));
    SplitThree(huge, "0", "0");
  }

  lemma MinorOverflow(a: string, huge: string)
    requires '-' !in a && '-' !in huge
    ensures |SplitDash(a + "-" + ("-" + huge) + "-0")| == 4
  {
    assert a + "-" + ("-" + huge) + "-0" == a + "-" + ("" + "-" + (huge + "-" + "0"));
    SplitFirst(a, "" + "-" + (huge + "-" + "0"));
    SplitThree("", huge, "0");
  }

  lemma LastDash(b: string, huge: string)
    requires '-' !in b && '-' !in huge
    ensures |SplitDash(b + "-" + ("-" + huge))| == 3
  {
    SplitThree(b, "", huge);
    assert b + "-" + ("-" + huge) == b + "-" + ("" + "-" + huge);
  }

  lemma PatchOverflow(a: string, b: string, huge: string)
    requires '-' !in a && '-' !in b && '-' !in huge
    ensures |SplitDash(a + "-" + b + "-" + ("-" + huge))| == 4
  {
    LastDash(b, huge);
    var rest := b + "-" + ("-" + huge);
    SplitFirst(a, rest);
    assert a + "-" + b + "-" + ("-" + huge) == a + "-" + rest;
  }

  /** Out of room, the suggestion's own text no longer parses: the overflowed
      component prints with a minus sign, which reads as a fourth part. */
  lemma OverflowDoesNotParse(from: SchemaVer, level: int)
    requires InRange(from) && 0 <= level <= 2 && !HasRoom(from, level)
    ensures Parse(Bumped(from, level).raw).None?
  {
    PrintedNoDash(MAX_INT + 1);
    PrintedNoDash(from.major);
    PrintedNoDash(from.minor);
    var huge := PrintNat(MAX_INT + 1);
    assert PrintInt(Wrap(MAX_INT + 1)) == "-" + huge;
    if level == 2 {
      MajorOverflow(huge);
    } else if level == 1 {
      MinorOverflow(PrintNat(from.major), huge);
    } else {
      PatchOverflow(PrintNat(from.major), PrintNat(from.minor), huge);
    }
  }

  /** The suggestion is the least accepted version, and the accepted versions are
      exactly those at or above it. */
  lemma SuggestionIsLeastAccepted(from: string, to: string, changes: seq<Change>)
    requires Parse(from).Some? && Parse(to).Some? && HasRoom(Parse(from).value, Level(changes))
    ensures Accepted(from, to, changes) <==> Compare(Parse(to).value, Bumped(Parse(from).value, Level(changes))) >= 0
  {
    var f, t := Parse(from).value, Parse(to).value;
    ParsedInRange(from);
    ParsedInRange(to);
    BumpedIsPrinted(f, Level(changes));
    CompareIsLexicographic(t, f);
    CompareIsLexicographic(t, Bumped(f, Level(changes)));
  }

  /** Out of room, only a step of a higher component is accepted, and none is if the
      changes need a major one. */
  lemma AcceptedWithoutRoom(from: string, to: string, changes: seq<Change>)
    requires Parse(from).Some? && Parse(to).Some? && !HasRoom(Parse(from).value, Level(changes))
    ensures var f, t, level := Parse(from).value, Parse(to).value, Level(changes);
      Accepted(from, to, changes) <==>
        level < 2 && (t.major > f.major || (level == 0 && t.major == f.major && t.minor > f.minor))
  {
    ParsedInRange(from);
    ParsedInRange(to);
    CompareIsLexicographic(Parse(to).value, Parse(from).value);
  }

  /** The suggestion's text is accepted exactly when the bumped component has room. */
  lemma SuggestionIsAccepted(from: string, changes: seq<Change>)
    requires Parse(from).Some?
    ensures var v := Bumped(Parse(from).value, Level(changes));
      Accepted(from, v.raw, changes) && Parse(v.raw) == Some(v) <==> HasRoom(Parse(from).value, Level(changes))
  {
    var f, level := Parse(from).value, Level(changes);
    var v := Bumped(f, level);
    ParsedInRange(from);
    if HasRoom(f, level) {
      BumpedIsPrinted(f, level);
      SuggestionIsLeastAccepted(from, v.raw, changes);
      CompareIsLexicographic(v, v);
    } else {
      OverflowDoesNotParse(f, level);
    }
  }

  /** Accepted in terms of the numbers: a higher version, with a higher major number if a
      major step is needed and a higher major or minor one if a minor step is. */
  lemma AcceptedMeans(from: string, to: string, changes: seq<Change>)
    requires Parse(from).Some? && Parse(to).Some?
    ensures var f, t := Parse(from).value, Parse(to).value;
      Accepted(from, to, changes) <==>
        && Below(f, t)
        && (Level(changes) == 2 ==> t.major > f.major)
        && (Level(changes) == 1 ==> t.major > f.major || t.minor > f.minor)
  {
    ParsedInRange(from);
    ParsedInRange(to);
    CompareIsLexicographic(Parse(to).value, Parse(from).value);
  }
}
