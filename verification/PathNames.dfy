/** The paths SysResolvePath hands to the driver: both split them into the same components, and of the
    names the driver cannot keep only two kinds are left. */
module PathNames {
  import opened FatDisk
  import opened FatCells
  import opened FatNames
  import opened FatItems
  import FatPaths
  import FatApi
  import FatOddNames
  import opened ResolvePath

  /** The characters of a C string. */
  ghost predicate CText(s: string) { forall i :: 0 <= i < |s| ==> 1 <= s[i] as int < 256 }

  ghost predicate CTexts(cs: seq<string>) { forall i :: 0 <= i < |cs| ==> CText(cs[i]) }

  /** The bytes of a C string. */
  function Encoded(s: string): (p: Name)
    requires CText(s)
    ensures |p| == |s| && forall i :: 0 <= i < |s| ==> p[i] == s[i] as int
  {
    seq(|s|, i requires 0 <= i < |s| => s[i] as int)
  }

  /** Byte for byte the same components. */
  ghost predicate SameComps(ps: seq<Name>, cs: seq<string>) {
    |ps| == |cs| && forall i :: 0 <= i < |cs| ==> CText(cs[i]) && ps[i] == Encoded(cs[i])
  }

  /** The driver finds the components the resolver finds once every backslash is a slash. */
  lemma {:induction false} SameComponents(s: string)
    requires CText(s)
    ensures SameComps(FatPaths.Comps(Encoded(s)), Tokens(Slashes(s)))
    decreases |s|
  {
    hide Encoded, FatPaths.Comps, Tokens, Slashes, CText;
    var p, t := Encoded(s), Slashes(s);
    CompsCons(p);
    TokensCons(t);
    WordSame(s, Word(t));
    if s == "" {
    } else if t[0] == '/' {
      CutText(s, 1);
      SameComponents(s[1..]);
    } else {
      var n := Word(t);
      CutText(s, n);
      SameComponents(s[n..]);
    }
  }

  /** Encoding and unifying slashes work character by character. */
  lemma CutText(s: string, n: nat)
    requires CText(s) && n <= |s|
    ensures CText(s[n..]) && Encoded(s[n..]) == Encoded(s)[n..] && Slashes(s[n..]) == Slashes(s)[n..]
  {
  }

  lemma CompsCons(p: Name)
    ensures FatPaths.Comps(p)
         == if p == [] then []
            else if FatPaths.IsSep(p[0]) then FatPaths.Comps(p[1..])
            else [p[..FatPaths.WordLen(p)]] + FatPaths.Comps(p[FatPaths.WordLen(p)..])
  {
  }

  lemma TokensCons(t: string)
    ensures Tokens(t) == if t == "" then [] else if t[0] == '/' then Tokens(t[1..]) else [t[..Word(t)]] + Tokens(t[Word(t)..])
  {
  }

  /** Both stop at the same separator. */
  lemma WordSame(s: string, n: nat)
    requires CText(s) && n == Word(Slashes(s))
    ensures FatPaths.WordLen(Encoded(s)) == n
    ensures s != "" ==> (FatPaths.IsSep(Encoded(s)[0]) <==> Slashes(s)[0] == '/')
    ensures CText(Slashes(s)[..n]) && Encoded(s)[..n] == Encoded(Slashes(s)[..n])
  {
    var p := Encoded(s);
    forall i | 0 <= i < |s| ensures FatPaths.IsSep(p[i]) <==> Slashes(s)[i] == '/' { }
    var w, rest := p[..n], p[n..];
    assert p == w + rest;
    FatPaths.WordLenIs(w, rest);
  }

  // ---- the texts are C strings -------------------------------------------------

  lemma {:induction false} TokensText(t: string)
    requires CText(t)
    ensures CTexts(Tokens(t))
    decreases |t|
  {
    if t == "" {
    } else if t[0] == '/' {
      TokensText(t[1..]);
    } else {
      TokensText(t[Word(t)..]);
    }
  }

  lemma {:induction false} FoldText(limit: nat, stack: seq<string>, comps: seq<string>)
    requires CTexts(stack) && CTexts(comps)
    ensures CTexts(FoldIn(limit, stack, comps))
    decreases |comps|
  {
    if comps != [] { FoldText(limit, StepIn(limit, stack, comps[0]), comps[1..]); }
  }

  lemma {:induction false} SlashedText(parts: seq<string>)
    requires CTexts(parts)
    ensures CText(Slashed(parts)) && CText(Render(parts))
    decreases |parts|
  {
    if parts != [] { SlashedText(parts[..|parts| - 1]); }
  }

  lemma SysLineText(cwd: string, user: string)
    requires CText(cwd) && CText(user) && '\\' !in cwd
    ensures CText(SysLine(cwd, user)) && '\\' !in SysLine(cwd, user)
  {
    SlashesClean(if |user| < FAT_MAX_PATH then user else user[..FAT_MAX_PATH - 1]);
  }

  /** What SysResolvePath writes is a C string whose components are the names it kept. */
  lemma SysNames(cwd: string, user: string)
    requires CText(cwd) && CText(user) && '\\' !in cwd
    ensures var r := SysResolved(cwd, user);
            && CText(r) && '\\' !in r && |r| < ROOM && CTexts(Tokens(r)) && AllPlain(Tokens(r)) && Slashes(r) == r
            && |Tokens(r)| <= 32
  {
    hide Tokens, FoldIn;
    var line := SysLine(cwd, user);
    SysLineText(cwd, user);
    TokensText(line);
    TokensComps(line);
    var parts := FoldIn(32, [], Tokens(line));
    FoldText(32, [], Tokens(line));
    FoldPlain(32, [], Tokens(line));
    var shown := Shown(parts);
    SlashedText(shown);
    SysTextClean(parts);
    TokensRender(shown);
    SlashesClean(SysText(parts));
  }

  // ---- which names are left ----------------------------------------------------

  /** A name the driver cannot keep: its first byte is that of an erased slot, or it is three dots. */
  predicate Unkept(c: string) { c == "..." || (c != "" && c[0] as int == 0xE5) }

  lemma GoodPlain(c: string)
    requires ResolvePath.Plain(c) && CText(c) && |c| <= 255
    ensures GoodName(Encoded(c)) <==> !Unkept(c)
  {
    hide GoodName;
    var p := Encoded(c);
    FatOddNames.GoodNames(p);
    if p == [DOT, DOT, DOT] { assert c == "..."; }
    assert c == "..." ==> p == [DOT, DOT, DOT];
  }

  /** The driver can keep every name of a resolved path if and only if no name is three dots or
      starts with the byte of an erased slot: resolution removes "." and "..", and limits the length. */
  lemma ResolvedIsClean(cwd: string, user: string)
    requires CText(cwd) && CText(user) && '\\' !in cwd
    ensures var r := SysResolved(cwd, user);
            CText(r) && (FatApi.Clean(Encoded(r)) <==> forall i :: 0 <= i < |Tokens(r)| ==> !Unkept(Tokens(r)[i]))
  {
    hide SysResolved, Encoded, Tokens, FatPaths.Comps, GoodName, Unkept;
    var r := SysResolved(cwd, user);
    SysNames(cwd, user);
    SameComponents(r);
    TokensShort(r);
    var ps, cs := FatPaths.Comps(Encoded(r)), Tokens(r);
    forall i | 0 <= i < |cs| ensures GoodName(ps[i]) <==> !Unkept(cs[i]) { GoodPlain(cs[i]); }
  }

  lemma {:induction false} TokensShort(t: string)
    ensures forall i :: 0 <= i < |Tokens(t)| ==> |Tokens(t)[i]| <= |t|
    decreases |t|
  {
    if t == "" {
    } else if t[0] == '/' {
      TokensShort(t[1..]);
    } else {
      TokensShort(t[Word(t)..]);
    }
  }
}
