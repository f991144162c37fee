/** Two canonicalisers of paths: the kernel's SysResolvePath and the user library's path_resolve. */
module ResolvePath {

  const NUL: char := '\0'
  const FAT_MAX_PATH: nat := 256
  const ROOM: nat := FAT_MAX_PATH - 32

  // ---- components ------------------------------------------------------------------

  function Slash(c: char): char { if c == '\\' then '/' else c }

  function Slashes(s: string): (r: string)
    ensures |r| == |s| && forall i :: 0 <= i < |s| ==> r[i] == Slash(s[i])
  {
    seq(|s|, i requires 0 <= i < |s| => Slash(s[i]))
  }

  /** Length of the leading run of characters other than '/'. */
  function Word(s: string): (n: nat)
    ensures n <= |s| && (forall i :: 0 <= i < n ==> s[i] != '/') && (n < |s| ==> s[n] == '/')
  {
    if s == "" || s[0] == '/' then 0 else 1 + Word(s[1..])
  }

  /** The maximal runs of characters other than '/', in order. */
  function Tokens(s: string): seq<string>
    decreases |s|
  {
    if s == "" then []
    else if s[0] == '/' then Tokens(s[1..])
    else [s[..Word(s)]] + Tokens(s[Word(s)..])
  }

  function Step(stack: seq<string>, comp: string): seq<string> {
    if comp == "." then stack
    else if comp == ".." then (if stack == [] then [] else stack[..|stack| - 1])
    else stack + [comp]
  }

  function Fold(stack: seq<string>, comps: seq<string>): seq<string>
    decreases |comps|
  {
    if comps == [] then stack else Fold(Step(stack, comps[0]), comps[1..])
  }

  /** The same on a stack of `limit` places: what does not fit is dropped. */
  function StepIn(limit: nat, stack: seq<string>, comp: string): (r: seq<string>)
    ensures |stack| <= limit ==> |r| <= limit
  {
    if comp != "." && comp != ".." && |stack| >= limit then stack else Step(stack, comp)
  }

  function FoldIn(limit: nat, stack: seq<string>, comps: seq<string>): seq<string>
    decreases |comps|
  {
    if comps == [] then stack else FoldIn(limit, StepIn(limit, stack, comps[0]), comps[1..])
  }

  /** The stack never grows beyond `limit` on the way. */
  predicate Shallow(limit: nat, stack: seq<string>, comps: seq<string>)
    decreases |comps|
  {
    |stack| <= limit && (comps == [] || Shallow(limit, Step(stack, comps[0]), comps[1..]))
  }

  // ---- text ------------------------------------------------------------------------

  /** Every part with a '/' before it. */
  function Slashed(parts: seq<string>): string
    decreases |parts|
  {
    if parts == [] then "" else Slashed(parts[..|parts| - 1]) + "/" + parts[|parts| - 1]
  }

  function Render(parts: seq<string>): string { if parts == [] then "/" else Slashed(parts) }

  predicate Fits(parts: seq<string>) { |Render(parts)| < ROOM }

  /** The longest leading part of `parts` whose text fits. */
  function Shown(parts: seq<string>): (r: seq<string>)
    ensures r <= parts && Fits(r) && (Fits(parts) ==> r == parts)
    decreases |parts|
  {
    if Fits(parts) then parts else Shown(parts[..|parts| - 1])
  }

  /** What path_resolve writes for the components it kept. */
  function UserText(parts: seq<string>): string { Render(Shown(parts)) }

  /** What SysResolvePath writes: when it stops early, a '/' stays behind if there was room for it. */
  function SysText(parts: seq<string>): string {
    var shown := Shown(parts);
    if shown == parts || shown == [] || |Slashed(shown)| == ROOM - 1 then Render(shown) else Slashed(shown) + "/"
  }

  // ---- the two results, and what both are meant to be -----------------------------

  predicate Absolute(s: string) { s != "" && Slash(s[0]) == '/' }

  function WithSlash(s: string): string { if s != "" && s[|s| - 1] != '/' then s + "/" else s }

  function SysLine(cwd: string, user: string): string {
    var temp := Slashes(if |user| < FAT_MAX_PATH then user else user[..FAT_MAX_PATH - 1]);
    if temp != "" && temp[0] == '/' then temp else WithSlash(cwd) + temp
  }

  function SysResolved(cwd: string, user: string): string { SysText(FoldIn(32, [], Tokens(SysLine(cwd, user)))) }

  function UserLine(cwd: string, user: string): string {
    if Absolute(user) then Slashes(user) else WithSlash(Slashes(if cwd == "" then "/" else cwd)) + Slashes(user)
  }

  function UserResolved(cwd: string, user: string): string {
    if user == "" then (if cwd == "" then "/" else cwd)
    else UserText(FoldIn(64, [], Tokens(UserLine(cwd, user))))
  }

  /** The components a path names: those of the working directory first unless it is absolute. */
  function Comps(cwd: string, user: string): seq<string> {
    (if Absolute(user) then [] else Tokens(Slashes(cwd))) + Tokens(Slashes(user))
  }

  function Resolve(cwd: string, user: string): string { Render(Fold([], Comps(cwd, user))) }

  // ---- facts about components -----------------------------------------------------

  lemma {:induction false} TokensJoin(a: string, b: string)
    ensures Tokens(a + "/" + b) == Tokens(a) + Tokens(b)
    decreases |a|
  {
    var s := a + "/" + b;
    if a == "" {
      assert s[1..] == b;
    } else if a[0] == '/' {
      assert s[1..] == a[1..] + "/" + b;
      TokensJoin(a[1..], b);
    } else {
      var n := Word(a);
      WordIs(s, n);
      assert s[..n] == a[..n] && s[n..] == a[n..] + "/" + b;
      TokensJoin(a[n..], b);
      assert Tokens(s) == [a[..n]] + (Tokens(a[n..]) + Tokens(b));
    }
  }

  lemma {:induction false} WordIs(s: string, n: nat)
    requires n <= |s| && (forall i :: 0 <= i < n ==> s[i] != '/') && (n < |s| ==> s[n] == '/')
    ensures Word(s) == n
    decreases n
  {
    if n > 0 { WordIs(s[1..], n - 1); }
  }

  lemma NoTokens()
    ensures Tokens("") == []
  {
  }

  /** A trailing '/' adds nothing, and neither does a missing one. */
  lemma TokensSlash(s: string, t: string)
    ensures Tokens(WithSlash(s) + t) == Tokens(s) + Tokens(t)
  {
    hide Tokens;
    NoTokens();
    if s == "" {
      assert WithSlash(s) + t == t;
    } else if s[|s| - 1] == '/' {
      var u := s[..|s| - 1];
      TokensJoin(u, t);
      TokensJoin(u, "");
      assert u + "/" == s && u + "/" + "" == s && WithSlash(s) == s;
      assert Tokens(s) == Tokens(u) + Tokens("") == Tokens(u);
    } else {
      TokensJoin(s, t);
    }
  }

  /** One component: not empty, no separator inside. */
  predicate Comp(c: string) { c != "" && '/' !in c && '\\' !in c }

  /** A component that names something. */
  predicate Plain(c: string) { Comp(c) && c != "." && c != ".." }

  ghost predicate AllComps(cs: seq<string>) { forall i :: 0 <= i < |cs| ==> Comp(cs[i]) }
  ghost predicate AllPlain(cs: seq<string>) { forall i :: 0 <= i < |cs| ==> Plain(cs[i]) }

  lemma {:induction false} TokensComps(s: string)
    requires '\\' !in s
    ensures AllComps(Tokens(s))
    decreases |s|
  {
    if s == "" {
    } else if s[0] == '/' {
      TokensComps(s[1..]);
    } else {
      TokensComps(s[Word(s)..]);
    }
  }

  lemma {:induction false} FoldPlain(limit: nat, stack: seq<string>, comps: seq<string>)
    requires AllPlain(stack) && AllComps(comps)
    ensures AllPlain(FoldIn(limit, stack, comps)) && AllPlain(Fold(stack, comps))
    ensures |stack| <= limit ==> |FoldIn(limit, stack, comps)| <= limit
    decreases |comps|
  {
    if comps != [] {
      FoldPlain(limit, StepIn(limit, stack, comps[0]), comps[1..]);
      FoldPlain(limit, Step(stack, comps[0]), comps[1..]);
    }
  }

  lemma {:induction false} ShallowFold(limit: nat, stack: seq<string>, comps: seq<string>)
    requires Shallow(limit, stack, comps)
    ensures FoldIn(limit, stack, comps) == Fold(stack, comps) && |Fold(stack, comps)| <= limit
    decreases |comps|
  {
    if comps != [] {
      ShallowFold(limit, Step(stack, comps[0]), comps[1..]);
    }
  }

  lemma {:induction false} ShallowMore(limit: nat, more: nat, stack: seq<string>, comps: seq<string>)
    requires Shallow(limit, stack, comps) && limit <= more
    ensures Shallow(more, stack, comps)
    decreases |comps|
  {
    if comps != [] {
      ShallowMore(limit, more, Step(stack, comps[0]), comps[1..]);
    }
  }

  lemma {:induction false} FoldJoin(stack: seq<string>, a: seq<string>, b: seq<string>)
    ensures Fold(stack, a + b) == Fold(Fold(stack, a), b)
    decreases |a|
  {
    if a == [] {
      assert a + b == b;
    } else {
      assert (a + b)[1..] == a[1..] + b;
      FoldJoin(Step(stack, a[0]), a[1..], b);
    }
  }

  lemma {:induction false} ShallowJoin(limit: nat, stack: seq<string>, a: seq<string>, b: seq<string>)
    ensures Shallow(limit, stack, a + b) <==> Shallow(limit, stack, a) && Shallow(limit, Fold(stack, a), b)
    decreases |a|
  {
    if a == [] {
      assert a + b == b;
      if b != [] {}
    } else {
      assert (a + b)[1..] == a[1..] + b;
      ShallowJoin(limit, Step(stack, a[0]), a[1..], b);
    }
  }

  /** Plain components stay as they are. */
  lemma {:induction false} PlainStay(limit: nat, stack: seq<string>, parts: seq<string>)
    requires AllPlain(parts) && |stack| + |parts| <= limit
    ensures Fold(stack, parts) == stack + parts && Shallow(limit, stack, parts)
    decreases |parts|
  {
    if parts != [] {
      PlainStay(limit, stack + [parts[0]], parts[1..]);
      assert stack + parts == stack + [parts[0]] + parts[1..];
    } else {
      assert stack + parts == stack;
    }
  }

  /** Names beyond the limit are dropped, the ones before them kept. */
  lemma {:induction false} DeepNames(limit: nat, stack: seq<string>, parts: seq<string>)
    requires AllPlain(parts) && |stack| <= limit
    ensures FoldIn(limit, stack, parts) == if |stack| + |parts| <= limit then stack + parts else (stack + parts)[..limit]
    decreases |parts|
  {
    if parts == [] {
      assert stack + parts == stack;
    } else {
      var next := StepIn(limit, stack, parts[0]);
      DeepNames(limit, next, parts[1..]);
      if |stack| < limit {
        assert next + parts[1..] == stack + parts;
      } else {
        assert (stack + parts)[..limit] == stack && (next + parts[1..])[..limit] == stack;
      }
    }
  }

  /** The kept components read from the right: a ".." cancels the nearest kept name before it,
      and one that finds none does nothing. */
  function FromRight(comps: seq<string>, cancel: nat): seq<string>
    decreases |comps|
  {
    if comps == [] then []
    else
      var rest, c := comps[..|comps| - 1], comps[|comps| - 1];
      if c == "." then FromRight(rest, cancel)
      else if c == ".." then FromRight(rest, cancel + 1)
      else if cancel > 0 then FromRight(rest, cancel - 1)
      else FromRight(rest, 0) + [c]
  }

  function Drop(s: seq<string>, n: nat): seq<string> { if n <= |s| then s[..|s| - n] else [] }

  lemma {:induction false} FoldFromRight(comps: seq<string>, cancel: nat)
    ensures Drop(Fold([], comps), cancel) == FromRight(comps, cancel)
    decreases |comps|
  {
    if comps != [] {
      var rest, c := comps[..|comps| - 1], comps[|comps| - 1];
      assert comps == rest + [c];
      FoldJoin([], rest, [c]);
      var f := Fold([], rest);
      assert Fold(f, [c]) == Step(f, c) by { assert [c][1..] == []; }
      if c == "." {
        FoldFromRight(rest, cancel);
      } else if c == ".." {
        FoldFromRight(rest, cancel + 1);
      } else if cancel > 0 {
        FoldFromRight(rest, cancel - 1);
      } else {
        FoldFromRight(rest, 0);
      }
    }
  }

  /** Resolution without a stack: reading the components from the right, each ".." cancels one name. */
  lemma ResolveFromRight(cwd: string, user: string)
    ensures Resolve(cwd, user) == Render(FromRight(Comps(cwd, user), 0))
  {
    hide Fold, FromRight, Comps, Render;
    var kept := Fold([], Comps(cwd, user));
    FoldFromRight(Comps(cwd, user), 0);
    assert Drop(kept, 0) == kept[..|kept|] == kept;
  }

  // ---- facts about text -------------------------------------------------------------

  lemma {:induction false} TokensRender(parts: seq<string>)
    requires AllPlain(parts)
    ensures Tokens(Render(parts)) == parts && Tokens(Slashed(parts) + "/") == parts
    decreases |parts|
  {
    if parts == [] {
      assert Slashed(parts) + "/" == "/" && "/"[1..] == "";
    } else {
      var rest, c := parts[..|parts| - 1], parts[|parts| - 1];
      SlashedTokens(rest);
      OneToken(c);
      TokensJoin(Slashed(rest), c);
      TokensJoin(Slashed(parts), "");
      assert Slashed(parts) + "/" + "" == Slashed(parts) + "/";
    }
  }

  lemma {:induction false} SlashedTokens(parts: seq<string>)
    requires AllPlain(parts)
    ensures Tokens(Slashed(parts)) == parts
    decreases |parts|
  {
    if parts != [] {
      var rest, c := parts[..|parts| - 1], parts[|parts| - 1];
      SlashedTokens(rest);
      OneToken(c);
      TokensJoin(Slashed(rest), c);
    }
  }

  lemma OneToken(c: string)
    requires c != "" && '/' !in c
    ensures Tokens(c) == [c]
  {
    WordIs(c, |c|);
    assert c[..|c|] == c && c[|c|..] == "";
  }

  lemma {:induction false} SlashedLonger(parts: seq<string>, k: nat)
    requires k <= |parts|
    ensures |Slashed(parts)| >= |Slashed(parts[..k])| + (|parts| - k)
    decreases |parts|
  {
    if k < |parts| {
      var rest := parts[..|parts| - 1];
      SlashedLonger(rest, k);
      assert rest[..k] == parts[..k];
    } else {
      assert parts[..k] == parts;
    }
  }

  /** Where the text stops fitting is where `Shown` ends. */
  lemma {:induction false} ShownAt(parts: seq<string>, k: nat)
    requires k < |parts| && Fits(parts[..k]) && |Slashed(parts[..k + 1])| >= ROOM
    ensures Shown(parts) == parts[..k]
    decreases |parts|
  {
    SlashedLonger(parts, k + 1);
    var rest := parts[..|parts| - 1];
    if k + 1 < |parts| {
      assert rest[..k] == parts[..k] && rest[..k + 1] == parts[..k + 1];
      ShownAt(rest, k);
    } else {
      assert rest == parts[..k];
    }
  }

  /** Whether the kernel leaves a '/' at the end. */
  predicate CutAfterSlash(parts: seq<string>) {
    !Fits(parts) && Shown(parts) != [] && |Slashed(Shown(parts))| != ROOM - 1
  }

  /** The two texts differ exactly when the kernel leaves a '/' behind. */
  lemma TextsAgree(parts: seq<string>)
    ensures SysText(parts) == UserText(parts) <==> !CutAfterSlash(parts)
  {
    if CutAfterSlash(parts) {
      assert |SysText(parts)| == |UserText(parts)| + 1;
    }
  }

  lemma {:induction false} NoBackslash(parts: seq<string>)
    requires AllPlain(parts)
    ensures '\\' !in Slashed(parts) && '\\' !in Render(parts) && Slashes(Render(parts)) == Render(parts)
    ensures parts != [] ==> Slashed(parts)[0] == '/'
    decreases |parts|
  {
    if parts != [] {
      NoBackslash(parts[..|parts| - 1]);
    }
    var r := Render(parts);
    assert forall i :: 0 <= i < |r| ==> Slash(r[i]) == r[i];
  }

  lemma SlashesClean(s: string)
    ensures '\\' !in Slashes(s) && ('\\' !in s ==> Slashes(s) == s)
  {
  }

  lemma CompsClean(cwd: string, user: string)
    ensures AllComps(Comps(cwd, user))
  {
    SlashesClean(cwd);
    SlashesClean(user);
    TokensComps(Slashes(cwd));
    TokensComps(Slashes(user));
  }

  // ---- both follow the same rule -----------------------------------------------------

  lemma SysTokens(cwd: string, user: string)
    requires |user| < FAT_MAX_PATH && '\\' !in cwd
    ensures Tokens(SysLine(cwd, user)) == Comps(cwd, user)
  {
    SlashesClean(cwd);
    if !Absolute(user) { TokensSlash(cwd, Slashes(user)); }
  }

  lemma UserTokens(cwd: string, user: string)
    ensures Tokens(UserLine(cwd, user)) == Comps(cwd, user)
  {
    if !Absolute(user) {
      TokensSlash(Slashes(if cwd == "" then "/" else cwd), Slashes(user));
      if cwd == "" { assert Slashes("/")[1..] == "" && Slashes("") == ""; }
    }
  }

  /** While its stack suffices, SysResolvePath is the fold if and only if the result fits. */
  lemma SysIsResolve(cwd: string, user: string)
    requires |user| < FAT_MAX_PATH && '\\' !in cwd && Shallow(32, [], Comps(cwd, user))
    ensures SysResolved(cwd, user) == Resolve(cwd, user) <==> |Resolve(cwd, user)| < ROOM
  {
    SysTokens(cwd, user);
    ShallowFold(32, [], Comps(cwd, user));
  }

  /** The same of path_resolve, for a path that is not empty. */
  lemma UserIsResolve(cwd: string, user: string)
    requires user != "" && Shallow(64, [], Comps(cwd, user))
    ensures UserResolved(cwd, user) == Resolve(cwd, user) <==> |Resolve(cwd, user)| < ROOM
  {
    UserTokens(cwd, user);
    ShallowFold(64, [], Comps(cwd, user));
  }

  /** For a non-empty path no deeper than the kernel's stack the two agree if and only if the
      kernel leaves no '/' behind. */
  lemma Agree(cwd: string, user: string)
    requires user != "" && |user| < FAT_MAX_PATH && '\\' !in cwd && Shallow(32, [], Comps(cwd, user))
    ensures SysResolved(cwd, user) == UserResolved(cwd, user) <==> !CutAfterSlash(Fold([], Comps(cwd, user)))
  {
    var comps := Comps(cwd, user);
    SysTokens(cwd, user);
    UserTokens(cwd, user);
    ShallowMore(32, 64, [], comps);
    ShallowFold(32, [], comps);
    ShallowFold(64, [], comps);
    TextsAgree(Fold([], comps));
  }

  // ---- canonical paths ------------------------------------------------------------------

  ghost predicate Canonical(path: string) { exists parts: seq<string> :: AllPlain(parts) && path == Render(parts) }

  /** No slash stands behind another one, and none at the end. */
  predicate OneSlash(s: string) {
    (s == "" || s[|s| - 1] != '/') && forall i :: 0 <= i < |s| - 1 ==> !(s[i] == '/' && s[i + 1] == '/')
  }

  /** Canonical paths, read off the text: the root, or a path from the root with single slashes between names
      and none at the end, no name "." or "..", and no backslash. */
  lemma CanonicalIs(p: string)
    ensures Canonical(p) <==>
              p == "/" || (p != "" && p[0] == '/' && OneSlash(p) && '\\' !in p && AllPlain(Tokens(p)))
  {
    if Canonical(p) {
      var parts: seq<string> :| AllPlain(parts) && p == Render(parts);
      TokensRender(parts);
      NoBackslash(parts);
      SlashedOneSlash(parts);
    }
    if p == "/" {
      assert Render([]) == p;
    } else if p != "" && p[0] == '/' && OneSlash(p) && '\\' !in p && AllPlain(Tokens(p)) {
      Rebuilt(p);
      assert p == Render(Tokens(p));
    }
  }

  lemma {:induction false} SlashedOneSlash(parts: seq<string>)
    requires AllPlain(parts)
    ensures OneSlash(Slashed(parts))
    decreases |parts|
  {
    if parts != [] {
      var front, c := parts[..|parts| - 1], parts[|parts| - 1];
      SlashedOneSlash(front);
      var s, f := Slashed(parts), Slashed(front);
      assert s == f + "/" + c;
      forall i | 0 <= i < |s| - 1 ensures !(s[i] == '/' && s[i + 1] == '/') {
        if i + 1 < |f| {
          assert s[i] == f[i] && s[i + 1] == f[i + 1];
        } else if i + 1 == |f| {
          assert s[i] == f[i];
        } else {
          assert s[i + 1] == c[i - |f|] && c[i - |f|] in c;
        }
      }
      assert s[|s| - 1] == c[|c| - 1] && c[|c| - 1] in c;
    }
  }

  lemma {:induction false} SlashedCons(c: string, parts: seq<string>)
    ensures Slashed([c] + parts) == "/" + c + Slashed(parts)
    decreases |parts|
  {
    if parts == [] {
      assert [c] + parts == [c] && [c][..0] == [];
      assert Slashed([c]) == Slashed([]) + "/" + c;
    } else {
      var front, d := parts[..|parts| - 1], parts[|parts| - 1];
      assert ([c] + parts)[..|parts|] == [c] + front;
      SlashedCons(c, front);
    }
  }

  /** A text with single slashes is made of its components. */
  lemma {:induction false} Rebuilt(s: string)
    requires OneSlash(s) && (s == "" || s[0] == '/')
    ensures Slashed(Tokens(s)) == s
    decreases |s|
  {
    hide OneSlash, Slashed, Tokens;
    EmptyText();
    if s != "" {
      var n := Word(s[1..]);
      var w, rest := s[1..][..n], s[1..][n..];
      FirstName(s, n);
      Rebuilt(rest);
      SlashedCons(w, Tokens(rest));
      assert s == "/" + w + rest;
    }
  }

  lemma EmptyText()
    ensures Slashed(Tokens("")) == ""
  {
  }

  /** The first component of such a text, and the text behind it. */
  lemma FirstName(s: string, n: nat)
    requires OneSlash(s) && s != "" && s[0] == '/' && n == Word(s[1..])
    ensures OneSlash(s[1..][n..]) && (s[1..][n..] == "" || s[1..][n..][0] == '/')
    ensures Tokens(s) == [s[1..][..n]] + Tokens(s[1..][n..])
  {
    var t, rest := s[1..], s[1..][n..];
    assert t != "" && t[0] == s[1] != '/';
    forall i | 0 <= i < |rest| - 1 ensures !(rest[i] == '/' && rest[i + 1] == '/') {
      assert rest[i] == s[1 + n + i] && rest[i + 1] == s[1 + n + i + 1];
    }
    if rest != "" { assert rest[|rest| - 1] == s[|s| - 1]; }
  }

  lemma ResolveIsCanonical(cwd: string, user: string)
    ensures AllPlain(Fold([], Comps(cwd, user))) && Canonical(Resolve(cwd, user))
  {
    CompsClean(cwd, user);
    FoldPlain(0, [], Comps(cwd, user));
  }

  /** A resolved path names its own components, whatever the working directory. */
  lemma RenderComps(cwd: string, parts: seq<string>)
    requires AllPlain(parts)
    ensures Comps(cwd, Render(parts)) == parts && Fold([], parts) == parts && Absolute(Render(parts))
  {
    NoBackslash(parts);
    TokensRender(parts);
    PlainStay(|parts|, [], parts);
  }

  /** The paths resolution leaves alone are exactly the canonical ones. */
  lemma FixedPoints(cwd: string, path: string)
    ensures Resolve(cwd, path) == path <==> Canonical(path)
  {
    ResolveIsCanonical(cwd, path);
    if Canonical(path) {
      var parts: seq<string> :| AllPlain(parts) && path == Render(parts);
      RenderComps(cwd, parts);
    }
  }

  lemma Idempotent(cwd: string, other: string, user: string)
    ensures Resolve(other, Resolve(cwd, user)) == Resolve(cwd, user)
  {
    ResolveIsCanonical(cwd, user);
    FixedPoints(other, Resolve(cwd, user));
  }

  /** Changing directory and then resolving is resolving the joined path. */
  lemma Composes(cwd: string, a: string, b: string)
    requires a != "" && !Absolute(b)
    ensures Resolve(Resolve(cwd, a), b) == Resolve(cwd, a + "/" + b)
    ensures Comps(cwd, a + "/" + b) == Comps(cwd, a) + Tokens(Slashes(b))
  {
    hide AllPlain, Tokens, Fold, Comps, Absolute, Canonical;
    ResolveIsCanonical(cwd, a);
    var parts, more := Fold([], Comps(cwd, a)), Tokens(Slashes(b));
    BelowDir(parts, b);
    JoinedComps(cwd, a, b);
    FoldJoin([], parts, more);
    FoldJoin([], Comps(cwd, a), more);
  }

  lemma BelowDir(parts: seq<string>, b: string)
    requires AllPlain(parts) && !Absolute(b)
    ensures Comps(Render(parts), b) == parts + Tokens(Slashes(b)) && Fold([], parts) == parts
  {
    NoBackslash(parts);
    TokensRender(parts);
    PlainStay(|parts|, [], parts);
  }

  lemma JoinedComps(cwd: string, a: string, b: string)
    requires a != ""
    ensures Comps(cwd, a + "/" + b) == Comps(cwd, a) + Tokens(Slashes(b))
  {
    assert Slashes(a + "/" + b) == Slashes(a) + "/" + Slashes(b);
    TokensJoin(Slashes(a), Slashes(b));
  }

  // ---- the same with the limits in place -----------------------------------------------

  /** path_resolve applied to its own result changes nothing, cut or not. */
  lemma UserIdempotent(cwd: string, other: string, user: string)
    requires user != ""
    ensures UserResolved(other, UserResolved(cwd, user)) == UserResolved(cwd, user)
  {
    UserTokens(cwd, user);
    CompsClean(cwd, user);
    FoldPlain(64, [], Comps(cwd, user));
    var parts := FoldIn(64, [], Comps(cwd, user));
    var shown := Shown(parts);
    RenderComps(other, shown);
    UserTokens(other, Render(shown));
    PlainStay(64, [], shown);
    ShallowFold(64, [], shown);
  }

  /** SysResolvePath applied to its own result changes nothing if and only if it left no '/' behind. */
  lemma SysIdempotent(cwd: string, other: string, user: string)
    requires '\\' !in cwd && '\\' !in other && |user| < FAT_MAX_PATH
    ensures SysResolved(other, SysResolved(cwd, user)) == SysResolved(cwd, user)
       <==> !CutAfterSlash(FoldIn(32, [], Comps(cwd, user)))
  {
    SysTokens(cwd, user);
    CompsClean(cwd, user);
    FoldPlain(32, [], Comps(cwd, user));
    var parts := FoldIn(32, [], Comps(cwd, user));
    SysAgain(other, parts);
    TextsAgree(parts);
  }

  lemma SysAgain(other: string, parts: seq<string>)
    requires AllPlain(parts) && |parts| <= 32 && '\\' !in other
    ensures SysResolved(other, SysText(parts)) == UserText(parts)
  {
    var shown := Shown(parts);
    var text := SysText(parts);
    SysTextClean(parts);
    TokensRender(shown);
    SlashesClean(text);
    SysTokens(other, text);
    PlainStay(32, [], shown);
    ShallowFold(32, [], shown);
  }

  lemma SysTextClean(parts: seq<string>)
    requires AllPlain(parts)
    ensures var t := SysText(parts); '\\' !in t && 0 < |t| < ROOM && t[0] == '/'
  {
    NoBackslash(Shown(parts));
  }

  /** The kernel's working directory, always the result of an earlier resolution, is absolute,
      without backslashes, and leaves room in every buffer. */
  lemma SysClean(cwd: string, user: string)
    requires '\\' !in cwd
    ensures var r := SysResolved(cwd, user); '\\' !in r && 0 < |r| < ROOM && r[0] == '/'
  {
    var line := SysLine(cwd, user);
    SlashesClean(if |user| < FAT_MAX_PATH then user else user[..FAT_MAX_PATH - 1]);
    TokensComps(line);
    FoldPlain(32, [], Tokens(line));
    SysTextClean(FoldIn(32, [], Tokens(line)));
  }

  /** Changing to a directory and resolving there: the kernel's two calls give what one call on
      the joined path gives, as long as the directory's own path was not cut short. */
  lemma SysComposes(cwd: string, a: string, b: string)
    requires '\\' !in cwd && a != "" && !Absolute(b) && |a| + 1 + |b| < FAT_MAX_PATH
    requires Shallow(32, [], Comps(cwd, a + "/" + b)) && Fits(Fold([], Comps(cwd, a)))
    ensures SysResolved(SysResolved(cwd, a), b) == SysResolved(cwd, a + "/" + b)
  {
    var joined, dir := a + "/" + b, Resolve(cwd, a);
    JoinedComps(cwd, a, b);
    ShallowJoin(32, [], Comps(cwd, a), Tokens(Slashes(b)));
    SysIsResolve(cwd, a);
    SysTokens(cwd, joined);
    ShallowFold(32, [], Comps(cwd, joined));
    DirComps(cwd, a, b);
    SysTokens(dir, b);
    ShallowFold(32, [], Comps(dir, b));
  }

  /** Resolving below a resolved directory. */
  lemma DirComps(cwd: string, a: string, b: string)
    requires a != "" && !Absolute(b) && Shallow(32, [], Comps(cwd, a + "/" + b))
    ensures var dir := Resolve(cwd, a);
            '\\' !in dir && Shallow(32, [], Comps(dir, b)) && Fold([], Comps(dir, b)) == Fold([], Comps(cwd, a + "/" + b))
  {
    hide AllPlain, Tokens, Fold, Comps, Absolute, Canonical, Shallow;
    var parts, more := Fold([], Comps(cwd, a)), Tokens(Slashes(b));
    ResolveIsCanonical(cwd, a);
    NoBackslash(parts);
    BelowDir(parts, b);
    JoinedComps(cwd, a, b);
    ShallowJoin(32, [], Comps(cwd, a), more);
    ShallowFold(32, [], Comps(cwd, a));
    PlainStay(32, [], parts);
    ShallowJoin(32, [], parts, more);
    FoldJoin([], parts, more);
    FoldJoin([], Comps(cwd, a), more);
  }

  /** For the empty path the library returns the working directory as it stands, the kernel its
      canonical form: the two agree exactly when it is canonical already. */
  lemma EmptyPath(cwd: string)
    requires '\\' !in cwd && Shallow(32, [], Comps(cwd, "")) && Fits(Fold([], Comps(cwd, "")))
    ensures SysResolved(cwd, "") == UserResolved(cwd, "") <==> cwd == "" || Canonical(cwd)
  {
    SysIsResolve(cwd, "");
    SlashesClean(cwd);
    assert Slashes("") == "";
    if cwd == "" {
      assert Comps(cwd, "") == [];
    } else {
      ResolveIsCanonical(cwd, "");
      if Canonical(cwd) {
        var parts: seq<string> :| AllPlain(parts) && cwd == Render(parts);
        RenderComps(cwd, parts);
        assert Comps(cwd, "") == parts;
      }
    }
  }
}
