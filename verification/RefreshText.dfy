/** The text of a refresh token: it carries the id of its family. */
module RefreshText {
  import opened Prelude
  import opened Text
  import opened GrantStore

  /** At least 16 base64url characters. */
  predicate IsFamilyId(f: string) {
    |f| >= 16 && forall i :: 0 <= i < |f| ==> IsBase64Url(f[i])
  }

  predicate IsBase64UrlText(s: string) {
    forall i :: 0 <= i < |s| ==> IsBase64Url(s[i])
  }

  function GenerateRefreshToken(family: string, random: string): string {
    "rt" + "." + family + "." + random
  }

  function ParseRefreshFamilyId(raw: string): Option<string> {
    var parts := Split(raw, '.');
    if |parts| != 3 || parts[0] != "rt" || !IsFamilyId(parts[1]) then None else Some(parts[1])
  }

  /** The family id of a generated token is read back, whatever its random part. */
  lemma ParseGenerated(family: string, random: string)
    requires IsFamilyId(family) && IsBase64UrlText(random)
    ensures ParseRefreshFamilyId(GenerateRefreshToken(family, random)) == Some(family)
  {
    var parts := ["rt", family, random];
    JoinThree("rt", family, random, ".");
    forall i | 0 <= i < |parts| ensures '.' !in parts[i] {
    }
    SplitJoin(parts, '.');
  }

  /** Only texts of that shape are parsed, and the id is the middle part. */
  lemma ParsedShape(raw: string)
    requires ParseRefreshFamilyId(raw).Some?
    ensures var family := ParseRefreshFamilyId(raw).value;
      IsFamilyId(family) && exists random :: raw == GenerateRefreshToken(family, random)
  {
    var parts := Split(raw, '.');
    JoinSplit(raw, '.');
    assert parts == [parts[0], parts[1], parts[2]];
    JoinThree("rt", parts[1], parts[2], ".");
    assert raw == GenerateRefreshToken(parts[1], parts[2]);
  }

  /** The text is "rt", the family id and a random part, separated by dots. */
  ghost predicate IsTokenOf(raw: string, family: string) {
    && |family| >= 16 && (forall i :: 0 <= i < |family| ==> IsBase64Url(family[i]))
    && exists random :: raw == "rt." + family + "." + random && '.' !in random
  }

  /** Exactly the texts of that form are parsed, each as its family. */
  lemma ParsesExactly(raw: string, family: string)
    ensures ParseRefreshFamilyId(raw) == Some(family) <==> IsTokenOf(raw, family)
  {
    if ParseRefreshFamilyId(raw) == Some(family) {
      var parts := Split(raw, '.');
      JoinSplit(raw, '.');
      assert parts == [parts[0], parts[1], parts[2]];
      JoinThree("rt", parts[1], parts[2], ".");
      PiecesArePlain(raw, '.', 2);
      assert raw == "rt." + family + "." + parts[2];
    }
    if IsTokenOf(raw, family) {
      var random :| raw == "rt." + family + "." + random && '.' !in random;
      var parts := ["rt", family, random];
      JoinThree("rt", family, random, ".");
      forall i | 0 <= i < |parts| ensures '.' !in parts[i] { }
      SplitJoin(parts, '.');
      assert raw == "rt" + "." + family + "." + random;
    }
  }

  /** Different random parts, or different families, give different tokens. */
  lemma GenerateInjective(f: string, r: string, f': string, r': string)
    requires IsFamilyId(f) && IsBase64UrlText(r) && IsFamilyId(f') && IsBase64UrlText(r')
    requires GenerateRefreshToken(f, r) == GenerateRefreshToken(f', r')
    ensures f == f' && r == r'
  {
    ParseGenerated(f, r);
    ParseGenerated(f', r');
    var n := 4 + |f|;
    assert GenerateRefreshToken(f, r)[n..] == r;
    assert GenerateRefreshToken(f', r')[n..] == r';
  }
}
