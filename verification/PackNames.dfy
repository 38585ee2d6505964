/** Pack file names (src/core/catalog.rs:573-614): printing and parsing are inverse. */
module PackNames {
  import opened Wrappers
  import opened Text

  datatype Pack = Pack(name: string, build: string, incremental: bool)

  predicate IsDigit(c: char): (r: bool)
    ensures r <==> c in "0123456789"
  {
    '0' <= c <= '9'
  }

  predicate AllDigits(s: string) {
    forall i :: 0 <= i < |s| ==> IsDigit(s[i])
  }

  function StripSuffix(s: string, suffix: string): (r: Option<string>)
    ensures r.Some? <==> EndsWith(s, suffix)
    ensures r.Some? ==> r.value + suffix == s
  {
    if EndsWith(s, suffix) then Some(s[..|s| - |suffix|]) else None
  }

  function StripPrefix(s: string, prefix: string): (r: Option<string>)
    ensures r.Some? <==> StartsWith(s, prefix)
    ensures r.Some? ==> prefix + r.value == s
  {
    if StartsWith(s, prefix) then Some(s[|prefix|..]) else None
  }

  /** `rfind`. */
  function LastIndex(s: string, c: char): (r: Option<nat>)
    ensures r.Some? ==> r.value < |s| && s[r.value] == c && forall j :: r.value < j < |s| ==> s[j] != c
    ensures r.None? ==> forall j :: 0 <= j < |s| ==> s[j] != c
  {
    if s == [] then None else if s[|s| - 1] == c then Some(|s| - 1) else LastIndex(s[..|s| - 1], c)
  }

  const FULL: string := "_stock_pack"
  const INC: string := "_stock_inc_pack"

  function SplitBuild(rest: string, incremental: bool): Option<Pack> {
    match LastIndex(rest, '_')
    case None => None
    case Some(i) =>
      var name, num := rest[..i], rest[i + 1..];
      if name == [] || num == [] || !AllDigits(num) then None else Some(Pack(name, num, incremental))
  }

  /** `parse_pack`. */
  function ParsePack(fname: string): Option<Pack> {
    match StripSuffix(fname, ".zst")
    case None => None
    case Some(stem) =>
      match StripSuffix(stem, INC)
      case Some(rest) => SplitBuild(rest, true)
      case None =>
        match StripSuffix(stem, FULL)
        case Some(rest) => SplitBuild(rest, false)
        case None => None
  }

  /** `parse_home_pack`. */
  function ParseHome(fname: string): Option<string> {
    match StripSuffix(fname, ".zst")
    case None => None
    case Some(stem) =>
      match StripPrefix(stem, "home_")
      case None => None
      case Some(tail) =>
        match StripSuffix(tail, "_pack")
        case None => None
        case Some(num) => if num != [] && AllDigits(num) then Some(num) else None
  }

  predicate Printable(p: Pack) {
    p.name != [] && p.build != [] && AllDigits(p.build)
  }

  /** `<Profile>_<build>_stock_pack.zst` and `<Profile>_<build>_stock_inc_pack.zst`. */
  function Print(p: Pack): (r: string)
    ensures r == p.name + "_" + p.build + (if p.incremental then INC else FULL) + ".zst"
  {
    assert INC + ".zst" == "_stock_inc_pack.zst" && FULL + ".zst" == "_stock_pack.zst";
    p.name + "_" + p.build + (if p.incremental then "_stock_inc_pack.zst" else "_stock_pack.zst")
  }

  function PrintHome(build: string): (r: string)
    ensures r == "home_" + build + "_pack" + ".zst"
  {
    assert "_pack" + ".zst" == "_pack.zst";
    "home_" + build + "_pack.zst"
  }

  // --- round trips ------------------------------------------------------------

  lemma StripSuffixOf(s: string, suffix: string)
    ensures StripSuffix(s + suffix, suffix) == Some(s)
  {
    assert (s + suffix)[|s|..] == suffix;
    assert (s + suffix)[..|s|] == s;
  }

  /** A stem ends in at most one of the two suffixes. */
  lemma SuffixesDiffer(s: string)
    ensures !EndsWith(s + FULL, INC)
  {
    var t := s + FULL;
    if |t| >= |INC| {
      assert t[|t| - 6] == FULL[5] == 'k';
      assert t[|t| - |INC|..][9] == t[|t| - 6];
      assert INC[9] == 'c';
    }
  }

  lemma LastUnderscore(name: string, build: string)
    requires AllDigits(build)
    ensures LastIndex(name + "_" + build, '_') == Some(|name|)
  {
    hide LastIndex;
    var s := name + "_" + build;
    assert s[|name|] == '_';
    assert forall j :: |name| < j < |s| ==> s[j] == build[j - |name| - 1];
  }

  lemma SplitPrinted(p: Pack)
    requires Printable(p)
    ensures SplitBuild(p.name + "_" + p.build, p.incremental) == Some(p)
  {
    var s := p.name + "_" + p.build;
    LastUnderscore(p.name, p.build);
    assert s[..|p.name|] == p.name && s[|p.name| + 1..] == p.build;
  }

  lemma ParsePrinted(p: Pack)
    requires Printable(p)
    ensures ParsePack(Print(p)) == Some(p)
  {
    var rest := p.name + "_" + p.build;
    var suffix := if p.incremental then INC else FULL;
    StripSuffixOf(rest + suffix, ".zst");
    StripSuffixOf(rest, suffix);
    SuffixesDiffer(rest);
    SplitPrinted(p);
    hide SplitBuild, EndsWith;
  }

  lemma SplitIs(rest: string, incremental: bool)
    requires SplitBuild(rest, incremental).Some?
    ensures var p := SplitBuild(rest, incremental).value;
            Printable(p) && p.incremental == incremental && rest == p.name + "_" + p.build
  {
    var i := LastIndex(rest, '_').value;
    assert rest == rest[..i] + [rest[i]] + rest[i + 1..];
  }

  /** Pack names are a bijection: a file name parses to a pack exactly when it is that
      pack's printed name. */
  lemma ParseIsInverse(fname: string, p: Pack)
    ensures ParsePack(fname) == Some(p) <==> Printable(p) && fname == Print(p)
  {
    if ParsePack(fname) == Some(p) {
      var stem := StripSuffix(fname, ".zst").value;
      if StripSuffix(stem, INC).Some? {
        SplitIs(StripSuffix(stem, INC).value, true);
      } else {
        SplitIs(StripSuffix(stem, FULL).value, false);
      }
    }
    if Printable(p) {
      ParsePrinted(p);
    }
  }

  /** The same for the `/home` seed. */
  lemma ParseHomeIsInverse(fname: string, build: string)
    ensures ParseHome(fname) == Some(build) <==> build != [] && AllDigits(build) && fname == PrintHome(build)
  {
    var tail := build + "_pack";
    if fname == PrintHome(build) {
      assert fname == "home_" + tail + ".zst";
      StripSuffixOf("home_" + tail, ".zst");
      assert ("home_" + tail)[..5] == "home_" && ("home_" + tail)[5..] == tail;
      StripSuffixOf(build, "_pack");
    }
    if ParseHome(fname) == Some(build) {
      var stem := StripSuffix(fname, ".zst").value;
      assert stem == "home_" + (build + "_pack");
      assert "home_" + (build + "_pack") == "home_" + build + "_pack";
    }
  }

  lemma SeedHasDigit(fname: string)
    requires ParseHome(fname).Some?
    ensures |fname| >= 10 && IsDigit(fname[|fname| - 10])
  {
    var build := ParseHome(fname).value;
    ParseHomeIsInverse(fname, build);
    hide ParseHome;
    assert fname == ("home_" + build) + "_pack.zst";
    assert fname[|fname| - 10] == build[|build| - 1];
  }

  lemma PackHasLetter(fname: string)
    requires ParsePack(fname).Some?
    ensures |fname| >= 10 && !IsDigit(fname[|fname| - 10])
  {
    var p := ParsePack(fname).value;
    ParseIsInverse(fname, p);
    hide ParsePack, Printable;
    var head := p.name + "_" + p.build;
    if p.incremental {
      TenthFromEnd(head, INC);
    } else {
      TenthFromEnd(head, FULL);
    }
  }

  lemma TenthFromEnd(head: string, suffix: string)
    requires suffix == INC || suffix == FULL
    ensures var f := head + suffix + ".zst"; |f| >= 10 && !IsDigit(f[|f| - 10])
  {
    var f := head + suffix + ".zst";
    assert INC[9] == 'c' && FULL[5] == 'k';
    assert f[|f| - 10] == suffix[|suffix| - 6];
  }

  /** No name is both a profile pack and the seed: a seed has a digit where a pack has
      the end of "stock" or "inc". */
  lemma HomeIsNoPack(fname: string)
    ensures ParseHome(fname).None? || ParsePack(fname).None?
  {
    if ParsePack(fname).Some? {
      PackHasLetter(fname);
    }
    if ParseHome(fname).Some? {
      SeedHasDigit(fname);
    }
  }
}
