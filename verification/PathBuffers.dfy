/** The two canonicalisers as they run: on character buffers, splitting the line in place. */
module PathBuffers {
  import opened ResolvePath

  /** The C string that starts at `at`. */
  function Text(buf: seq<char>, at: nat): (t: string)
    ensures NUL !in t && (at <= |buf| ==> at + |t| <= |buf|)
    ensures forall i :: 0 <= i < |t| ==> at + i < |buf| && t[i] == buf[at + i]
    ensures at + |t| < |buf| ==> buf[at + |t|] == NUL
    decreases |buf| - at
  {
    if at >= |buf| || buf[at] == NUL then "" else [buf[at]] + Text(buf, at + 1)
  }

  lemma {:induction false} TextIs(buf: seq<char>, at: nat, t: string)
    requires at + |t| < |buf| && buf[at..at + |t|] == t && buf[at + |t|] == NUL && NUL !in t
    ensures Text(buf, at) == t
    decreases |t|
  {
    if t != "" {
      assert buf[at] == buf[at..at + |t|][0] == t[0];
      assert buf[at + 1..at + 1 + |t[1..]|] == buf[at..at + |t|][1..];
      TextIs(buf, at + 1, t[1..]);
    }
  }

  /** The buffer starts with the string `s`, terminated. */
  ghost predicate Holds(buf: seq<char>, s: string) {
    |s| < |buf| && buf[..|s|] == s && buf[|s|] == NUL && NUL !in s
  }

  lemma HoldsText(buf: seq<char>, s: string)
    requires Holds(buf, s)
    ensures Text(buf, 0) == s && |s| < |buf| && buf[|s|] == NUL
    ensures forall i :: 0 <= i < |s| ==> buf[i] == s[i]
  {
    assert buf[0..0 + |s|] == buf[..|s|];
    TextIs(buf, 0, s);
  }

  lemma HoldsMore(was: seq<char>, buf: seq<char>, s: string, t: string)
    requires Holds(was, s) && |s| + |t| < |buf| && NUL !in t
    requires |s| <= |was| && buf[..|s|] == was[..|s|] && buf[|s|..|s| + |t|] == t && buf[|s| + |t|] == NUL
    ensures Holds(buf, s + t)
  {
    assert buf[..|s| + |t|] == buf[..|s|] + buf[|s|..|s| + |t|];
  }

  /** strcpy, RtStrCopy. */
  method StrCopy(dst: array<char>, src: string)
    requires |src| < dst.Length && NUL !in src
    modifies dst
    ensures Holds(dst[..], src)
  {
    MemCopy(dst, 0, src);
    dst[|src|] := NUL;
    assert dst[..][..|src|] == dst[0..0 + |src|];
  }

  /** strcat, RtStrConcat. */
  method StrConcat(dst: array<char>, src: string, ghost was: string)
    requires Holds(dst[..], was) && |was| + |src| < dst.Length && NUL !in src
    modifies dst
    ensures Holds(dst[..], was + src)
  {
    hide Holds;
    HoldsText(dst[..], was);
    var end := |Text(dst[..], 0)|;
    ghost var before := dst[..];
    MemCopy(dst, end, src);
    dst[end + |src|] := NUL;
    assert dst[..][..end] == dst[..end] == before[..end];
    assert dst[..][end..end + |src|] == dst[end..end + |src|] == src;
    HoldsMore(before, dst[..], was, src);
  }

  /** RtMemCopy, memcpy. */
  method MemCopy(dst: array<char>, at: nat, src: string)
    requires at + |src| <= dst.Length
    modifies dst
    ensures dst[..at] == old(dst[..at]) && dst[at..at + |src|] == src && dst[at + |src|..] == old(dst[at + |src|..])
  {
    var i := 0;
    while i < |src|
      invariant i <= |src| && dst[..at] == old(dst[..at]) && dst[at..at + i] == src[..i]
      invariant dst[at + |src|..] == old(dst[at + |src|..])
    {
      dst[at + i] := src[i];
      i := i + 1;
    }
  }

  // ---- splitting the line ------------------------------------------------------------

  function Parts(buf: seq<char>, starts: seq<nat>): (parts: seq<string>)
    ensures |parts| == |starts| && forall k :: 0 <= k < |starts| ==> parts[k] == Text(buf, starts[k])
  {
    seq(|starts|, k requires 0 <= k < |starts| => Text(buf, starts[k]))
  }

  /** Read as far as `p`: the rest of the buffer is still the line, the stacked strings all end
      before it, and the fold over what is left completes the fold over the line. */
  ghost predicate Splitting(limit: nat, line: string, buf: seq<char>, starts: seq<nat>, p: nat)
    ensures Splitting(limit, line, buf, starts, p) ==> |line| < |buf| && p <= |line| && buf[|line|] == NUL && |starts| <= limit && NUL !in line
    ensures Splitting(limit, line, buf, starts, p) ==> forall i :: p <= i < |line| ==> buf[i] == line[i]
  {
    && |line| < |buf| && p <= |line| && buf[|line|] == NUL && |starts| <= limit && NUL !in line
    && (forall i :: p <= i < |line| ==> buf[i] == line[i])
    && (forall k :: 0 <= k < |starts| ==> starts[k] + |Text(buf, starts[k])| <= p)
    && FoldIn(limit, Parts(buf, starts), Tokens(line[p..])) == FoldIn(limit, [], Tokens(line))
  }

  lemma StartSplit(limit: nat, line: string, buf: seq<char>)
    requires Holds(buf, line)
    ensures Splitting(limit, line, buf, [], 0)
  {
    assert line[0..] == line && Parts(buf, []) == [];
    forall i | 0 <= i < |line| ensures buf[i] == line[i] { assert buf[..|line|][i] == line[i]; }
  }

  lemma SkipSlash(limit: nat, line: string, buf: seq<char>, starts: seq<nat>, p: nat)
    requires Splitting(limit, line, buf, starts, p) && buf[p] == '/'
    ensures Splitting(limit, line, buf, starts, p + 1)
  {
    assert line[p..][1..] == line[p + 1..];
  }

  lemma EndSplit(limit: nat, line: string, buf: seq<char>, starts: seq<nat>, p: nat)
    requires Splitting(limit, line, buf, starts, p) && buf[p] == NUL
    ensures Parts(buf, starts) == FoldIn(limit, [], Tokens(line))
  {
    assert forall i :: 0 <= i < |line| ==> line[i] != NUL;
    assert p == |line| && line[p..] == "";
  }

  /** The stack of starts after a component. */
  function StepStarts(limit: nat, starts: seq<nat>, p: nat, comp: string): seq<nat> {
    if comp == "." then starts
    else if comp == ".." then (if starts == [] then [] else starts[..|starts| - 1])
    else if |starts| >= limit then starts
    else starts + [p]
  }

  /** A NUL written after a string leaves the string alone. */
  lemma TextKept(buf: seq<char>, at: nat, q: nat)
    requires at + |Text(buf, at)| < q < |buf|
    ensures Text(buf[q := NUL], at) == Text(buf, at)
  {
    var t, b := Text(buf, at), buf[q := NUL];
    assert b[at..at + |t|] == t;
    TextIs(b, at, t);
  }

  lemma TakeToken(line: string, p: nat, q: nat)
    requires p < q <= |line| && (forall i :: p <= i < q ==> line[i] != '/') && (q < |line| ==> line[q] == '/')
    ensures Tokens(line[p..]) == [line[p..q]] + Tokens(line[if q < |line| then q + 1 else q..])
  {
    var s := line[p..];
    WordIs(s, q - p);
    assert s[..q - p] == line[p..q] && s[q - p..] == line[q..];
    if q < |line| { assert line[q..][1..] == line[q + 1..]; }
  }

  /** The component between `p` and `q` cut off and stacked. */
  lemma TakeComp(limit: nat, line: string, buf: seq<char>, starts: seq<nat>, p: nat, q: nat)
    requires Splitting(limit, line, buf, starts, p) && p < q <= |line|
    requires (forall i :: p <= i < q ==> line[i] != '/') && (q < |line| ==> line[q] == '/')
    ensures Text(buf[q := NUL], p) == line[p..q]
    ensures Splitting(limit, line, buf[q := NUL], StepStarts(limit, starts, p, line[p..q]), if q < |line| then q + 1 else q)
  {
    var b, c, r := buf[q := NUL], line[p..q], if q < |line| then q + 1 else q;
    CompText(limit, line, buf, starts, p, q);
    StackKept(limit, line, buf, starts, p, q);
    TakeToken(line, p, q);
    hide Tokens, FoldIn, Text, Parts;
    StackStep(limit, b, starts, p, c);
    StartsBefore(limit, b, starts, p, c, r);
    FoldStep(limit, Parts(b, starts), c, Tokens(line[r..]));
  }

  lemma CompText(limit: nat, line: string, buf: seq<char>, starts: seq<nat>, p: nat, q: nat)
    requires Splitting(limit, line, buf, starts, p) && p < q <= |line|
    ensures Text(buf[q := NUL], p) == line[p..q]
  {
    var b, c := buf[q := NUL], line[p..q];
    hide Splitting, Text;
    assert forall i :: p <= i < q ==> line[i] in line;
    assert b[p..q] == c;
    TextIs(b, p, c);
  }

  lemma StackKept(limit: nat, line: string, buf: seq<char>, starts: seq<nat>, p: nat, q: nat)
    requires Splitting(limit, line, buf, starts, p) && p < q <= |line|
    ensures Parts(buf[q := NUL], starts) == Parts(buf, starts)
    ensures forall k :: 0 <= k < |starts| ==> starts[k] + |Text(buf[q := NUL], starts[k])| <= p
  {
    hide FoldIn, Tokens, Text;
    var b := buf[q := NUL];
    forall k | 0 <= k < |starts| ensures Text(b, starts[k]) == Text(buf, starts[k]) { TextKept(buf, starts[k], q); }
  }

  lemma StartsBefore(limit: nat, buf: seq<char>, starts: seq<nat>, p: nat, c: string, r: nat)
    requires (forall k :: 0 <= k < |starts| ==> starts[k] + |Text(buf, starts[k])| <= p) && |starts| <= limit
    requires Text(buf, p) == c && p + |c| <= r
    ensures var all := StepStarts(limit, starts, p, c);
            |all| <= limit && forall k :: 0 <= k < |all| ==> all[k] + |Text(buf, all[k])| <= r
  {
  }

  lemma FoldStep(limit: nat, stack: seq<string>, c: string, rest: seq<string>)
    ensures FoldIn(limit, stack, [c] + rest) == FoldIn(limit, StepIn(limit, stack, c), rest)
  {
    assert ([c] + rest)[1..] == rest;
  }

  lemma StackStep(limit: nat, buf: seq<char>, starts: seq<nat>, p: nat, c: string)
    requires Text(buf, p) == c && |starts| <= limit
    ensures Parts(buf, StepStarts(limit, starts, p, c)) == StepIn(limit, Parts(buf, starts), c)
  {
    var parts := Parts(buf, starts);
    if starts != [] { assert Parts(buf, starts[..|starts| - 1]) == parts[..|parts| - 1]; }
    assert Parts(buf, starts + [p]) == parts + [c];
  }

  /** The switch on a component, shared by both loops: "." and ".." and the bounded push. */
  method Push(stack: array<nat>, top: nat, comp: nat, text: string) returns (top': nat)
    requires top <= stack.Length
    modifies stack
    ensures top' <= stack.Length && stack[..top'] == StepStarts(stack.Length, old(stack[..top]), comp, text)
  {
    top' := top;
    if text == "." {
    } else if text == ".." {
      if top > 0 { top' := top - 1; }
    } else if top < stack.Length {
      stack[top] := comp;
      top' := top + 1;
    }
  }

  /** The loop of SysResolvePath over `absolute`. */
  method SysSplit(absolute: array<char>, stack: array<nat>, ghost line: string) returns (top: nat)
    requires Holds(absolute[..], line)
    requires stack.Length == 32
    modifies absolute, stack
    ensures top <= 32 && Parts(absolute[..], stack[..top]) == FoldIn(32, [], Tokens(line))
  {
    hide Splitting;
    var p := 0;
    top := 0;
    StartSplit(32, line, absolute[..]);
    assert stack[..top] == [];
    if absolute[p] == '/' {
      SkipSlash(32, line, absolute[..], stack[..top], p);
      p := p + 1;
    }
    while absolute[p] != NUL
      invariant top <= 32 && Splitting(32, line, absolute[..], stack[..top], p) && p < absolute.Length
      decreases |line| - p
    {
      while absolute[p] == '/'
        invariant Splitting(32, line, absolute[..], stack[..top], p) && p < absolute.Length
        decreases |line| - p
      {
        SkipSlash(32, line, absolute[..], stack[..top], p);
        p := p + 1;
      }
      if absolute[p] == NUL { break; }
      var comp := p;
      while absolute[p] != NUL && absolute[p] != '/'
        invariant comp <= p <= |line| && forall i :: comp <= i < p ==> line[i] != '/'
        decreases |line| - p
      {
        p := p + 1;
      }
      ghost var q := p;
      ghost var before := absolute[..];
      TakeComp(32, line, before, stack[..top], comp, q);
      if absolute[p] != NUL {
        absolute[p] := NUL;
        p := p + 1;
      }
      assert absolute[..] == before[q := NUL];
      top := Push(stack, top, comp, Text(absolute[..], comp));
    }
    EndSplit(32, line, absolute[..], stack[..top], p);
  }

  /** The loop of path_resolve over `work`. */
  method UserSplit(work: array<char>, parts: array<nat>, ghost line: string) returns (top: nat)
    requires Holds(work[..], line)
    requires parts.Length == 64
    modifies work, parts
    ensures top <= 64 && Parts(work[..], parts[..top]) == FoldIn(64, [], Tokens(line))
  {
    hide Splitting;
    var p := 0;
    top := 0;
    StartSplit(64, line, work[..]);
    assert parts[..top] == [];
    p := SkipSlashes(work, p, line, parts[..top]);
    while work[p] != NUL
      invariant top <= 64 && Splitting(64, line, work[..], parts[..top], p) && p < work.Length && work[p] != '/'
      decreases |line| - p
    {
      var end := p;
      while work[end] != NUL && work[end] != '/'
        invariant p <= end <= |line| && forall i :: p <= i < end ==> line[i] != '/'
        decreases |line| - end
      {
        end := end + 1;
      }
      var wasEnd := work[end] == NUL;
      TakeComp(64, line, work[..], parts[..top], p, end);
      work[end] := NUL;
      top := Push(parts, top, p, Text(work[..], p));
      if wasEnd {
        p := end;
        break;
      }
      p := end + 1;
      p := SkipSlashes(work, p, line, parts[..top]);
    }
    EndSplit(64, line, work[..], parts[..top], p);
  }

  /** Moves on to the next character that is no slash. */
  method SkipSlashes(work: array<char>, from: nat, ghost line: string, ghost starts: seq<nat>) returns (p: nat)
    requires Splitting(64, line, work[..], starts, from)
    ensures Splitting(64, line, work[..], starts, p) && from <= p < work.Length && work[p] != '/'
  {
    hide Splitting;
    p := from;
    while work[p] == '/'
      invariant from <= p < work.Length && Splitting(64, line, work[..], starts, p)
      decreases |line| - p
    {
      SkipSlash(64, line, work[..], starts, p);
      p := p + 1;
    }
  }

  // ---- writing the result -------------------------------------------------------------

  ghost predicate NoNuls(parts: seq<string>) { forall k :: 0 <= k < |parts| ==> NUL !in parts[k] }

  lemma {:induction false} SlashedNoNul(parts: seq<string>)
    requires NoNuls(parts)
    ensures NUL !in Slashed(parts)
    decreases |parts|
  {
    if parts != [] { SlashedNoNul(parts[..|parts| - 1]); }
  }

  lemma SlashedNext(parts: seq<string>, j: nat)
    requires j < |parts|
    ensures Slashed(parts[..j + 1]) == Slashed(parts[..j]) + "/" + parts[j]
  {
    assert parts[..j + 1][..j] == parts[..j];
  }

  lemma SysTextNoNul(parts: seq<string>)
    requires NoNuls(parts)
    ensures NUL !in SysText(parts) && NUL !in UserText(parts)
  {
    SlashedNoNul(Shown(parts));
  }

  /** The first break of the kernel's loop: the next component does not fit. */
  lemma SysCutHere(parts: seq<string>, j: nat)
    requires j < |parts| && |Slashed(parts[..j])| + 1 < ROOM <= |Slashed(parts[..j])| + 1 + |parts[j]|
    ensures SysText(parts) == Slashed(parts[..j]) + "/"
  {
    SlashedNext(parts, j);
    ShownAt(parts, j);
    if j == 0 { assert parts[..j] == []; }
  }

  /** The second: the component fits, the '/' after it does not. */
  lemma SysCutAfter(parts: seq<string>, j: nat)
    requires j + 1 < |parts| && |Slashed(parts[..j + 1])| == ROOM - 1
    ensures SysText(parts) == Slashed(parts[..j + 1])
  {
    SlashedNext(parts, j + 1);
    ShownAt(parts, j + 1);
  }

  lemma WholeText(parts: seq<string>)
    requires Fits(parts)
    ensures SysText(parts) == Render(parts) == UserText(parts)
  {
  }

  /** Copies `text` behind what is written already. */
  method Append(dst: array<char>, pos: nat, text: string, ghost was: string) returns (end: nat)
    requires pos + |text| <= dst.Length && dst[..pos] == was
    modifies dst
    ensures end == pos + |text| && dst[..end] == was + text
  {
    MemCopy(dst, pos, text);
    end := pos + |text|;
    assert dst[..end] == dst[..pos] + dst[pos..pos + |text|];
  }

  /** Ends the written text. */
  method Close(dst: array<char>, pos: nat, ghost s: string)
    requires pos < dst.Length && dst[..pos] == s && NUL !in s
    modifies dst
    ensures Text(dst[..], 0) == s
  {
    dst[pos] := NUL;
    assert dst[..][..pos] == dst[..pos];
    HoldsText(dst[..], s);
  }

  /** The last part of SysResolvePath. */
  method SysWrite(absolute: array<char>, stack: array<nat>, top: nat, resolved: array<char>)
    requires top <= stack.Length && resolved.Length >= FAT_MAX_PATH && resolved != absolute
    modifies resolved
    ensures Text(resolved[..], 0) == SysText(Parts(absolute[..], stack[..top]))
  {
    hide SysText, Shown, Text, Slashed, Fits;
    ghost var parts := Parts(absolute[..], stack[..top]);
    SysTextNoNul(parts);
    resolved[0] := '/';
    resolved[1] := NUL;
    var pos := 1;
    var j := 0;
    NothingWritten(parts);
    assert resolved[..1] == "/";
    ghost var whole := true;
    while j < top
      invariant j <= top && 0 < pos < ROOM
      invariant resolved[..pos] == Slashed(parts[..j]) + (if j == 0 || j < top then "/" else "")
    {
      var text := Text(absolute[..], stack[j]);
      SlashedNext(parts, j);
      if pos + |text| >= ROOM {
        SysCutHere(parts, j);
        whole := false;
        break;
      }
      pos := Append(resolved, pos, text, Slashed(parts[..j]) + "/");
      if j < top - 1 {
        if pos + 1 >= ROOM {
          SysCutAfter(parts, j);
          whole := false;
          break;
        }
        pos := Append(resolved, pos, "/", Slashed(parts[..j + 1]));
      }
      j := j + 1;
    }
    if whole { AllWritten(parts, j); }
    Close(resolved, pos, SysText(parts));
  }

  lemma NothingWritten(parts: seq<string>)
    ensures Slashed(parts[..0]) == ""
  {
  }

  lemma AllWritten(parts: seq<string>, j: nat)
    requires j == |parts| && |Slashed(parts[..j])| < ROOM
    ensures SysText(parts) == UserText(parts) == if j == 0 then "/" else Slashed(parts[..j])
  {
    assert parts[..j] == parts;
    WholeText(parts);
  }

  lemma UserCutHere(parts: seq<string>, i: nat)
    requires i < |parts| && |Slashed(parts[..i])| < ROOM <= |Slashed(parts[..i])| + 1 + |parts[i]|
    ensures UserText(parts) == if i == 0 then "/" else Slashed(parts[..i])
  {
    SlashedNext(parts, i);
    ShownAt(parts, i);
  }

  /** Nothing is written only when no component was. */
  lemma SomethingWritten(parts: seq<string>, i: nat)
    requires i <= |parts|
    ensures |Slashed(parts[..i])| == 0 <==> i == 0
  {
    if i > 0 { SlashedNext(parts, i - 1); }
  }

  /** The last part of path_resolve. */
  method UserWrite(work: array<char>, starts: array<nat>, top: nat, out: array<char>)
    requires top <= starts.Length && out.Length >= FAT_MAX_PATH && out != work
    modifies out
    ensures Text(out[..], 0) == UserText(Parts(work[..], starts[..top]))
  {
    hide UserText, Shown, Text, Slashed, Fits;
    ghost var parts := Parts(work[..], starts[..top]);
    SysTextNoNul(parts);
    NothingWritten(parts);
    if top == 0 {
      AllWritten(parts, 0);
      out[0] := '/';
      assert out[..1] == "/";
      Close(out, 1, "/");
      return;
    }
    var pos: nat, i: nat := 0, 0;
    ghost var whole := true;
    while i < top
      invariant i <= top && pos < ROOM && out[..pos] == Slashed(parts[..i])
    {
      var text := Text(work[..], starts[i]);
      SlashedNext(parts, i);
      if pos + 1 + |text| >= ROOM {
        UserCutHere(parts, i);
        whole := false;
        break;
      }
      ghost var before := out[..pos];
      pos := Append(out, pos, "/", before);
      pos := Append(out, pos, text, before + "/");
      i := i + 1;
    }
    if whole { AllWritten(parts, i); }
    SomethingWritten(parts, i);
    if pos == 0 {
      out[0] := '/';
      assert out[..1] == "/";
      Close(out, 1, "/");
    } else {
      Close(out, pos, UserText(parts));
    }
  }

  // ---- the whole functions ---------------------------------------------------------------

  datatype CString = Null | To(text: string)

  /** SysResolvePath with g_current_directory == cwd. */
  method SysResolvePath(cwd: string, userPath: CString, resolved: array<char>)
    requires NUL !in cwd && |cwd| < FAT_MAX_PATH && (userPath.To? ==> NUL !in userPath.text) && resolved.Length >= FAT_MAX_PATH
    modifies resolved
    ensures Text(resolved[..], 0) == if userPath.Null? then "" else SysResolved(cwd, userPath.text)
  {
    if userPath.Null? {
      resolved[0] := NUL;
      return;
    }
    var absolute := SysJoin(cwd, userPath.text);
    var stack := new nat[32];
    var top := SysSplit(absolute, stack, SysLine(cwd, userPath.text));
    SysWrite(absolute, stack, top, resolved);
  }

  /** The bounded copy of the path into `temp`, backslashes turned. */
  method SysCopy(user: string) returns (temp: array<char>)
    requires NUL !in user
    ensures fresh(temp) && Holds(temp[..], Slashes(if |user| < FAT_MAX_PATH then user else user[..FAT_MAX_PATH - 1]))
  {
    temp := new char[FAT_MAX_PATH];
    var i := 0;
    while i < |user| && i < FAT_MAX_PATH - 1
      invariant i <= |user| && i <= FAT_MAX_PATH - 1 && temp[..i] == Slashes(user[..i])
    {
      temp[i] := Slash(user[i]);
      i := i + 1;
    }
    temp[i] := NUL;
    assert user[..i] == if |user| < FAT_MAX_PATH then user else user[..FAT_MAX_PATH - 1];
    assert temp[..][..i] == temp[..i] == Slashes(user[..i]);
  }

  /** The line in `absolute`. */
  method SysJoin(cwd: string, user: string) returns (absolute: array<char>)
    requires NUL !in cwd && |cwd| < FAT_MAX_PATH && NUL !in user
    ensures fresh(absolute) && Holds(absolute[..], SysLine(cwd, user))
  {
    hide Holds, SysLine, WithSlash, Text;
    var temp := SysCopy(user);
    ghost var t := Slashes(if |user| < FAT_MAX_PATH then user else user[..FAT_MAX_PATH - 1]);
    LineIs(cwd, user, t);
    HoldsText(temp[..], t);
    NoNulIn(temp[..]);
    absolute := new char[2 * FAT_MAX_PATH];
    if temp[0] == '/' {
      StrCopy(absolute, Text(temp[..], 0));
    } else {
      StrCopy(absolute, cwd);
      EndSlash(absolute, cwd);
      StrConcat(absolute, Text(temp[..], 0), WithSlash(cwd));
    }
  }

  lemma LineIs(cwd: string, user: string, t: string)
    requires t == Slashes(if |user| < FAT_MAX_PATH then user else user[..FAT_MAX_PATH - 1])
    ensures SysLine(cwd, user) == (if t != "" && t[0] == '/' then t else WithSlash(cwd) + t) && |t| < FAT_MAX_PATH
    ensures |WithSlash(cwd)| <= |cwd| + 1
  {
  }

  /** A '/' after the working directory unless it is empty or ends in one. */
  method EndSlash(absolute: array<char>, ghost was: string)
    requires Holds(absolute[..], was) && |was| + 1 < absolute.Length
    modifies absolute
    ensures Holds(absolute[..], WithSlash(was))
  {
    hide Holds, Text;
    HoldsText(absolute[..], was);
    var len := |Text(absolute[..], 0)|;
    if len > 0 && absolute[len - 1] != '/' {
      AddSlash(absolute, len, was);
    }
  }

  lemma NoNulIn(buf: seq<char>)
    ensures NUL !in Text(buf, 0)
  {
  }

  /** Puts one slash behind the text. */
  method AddSlash(buf: array<char>, len: nat, ghost was: string)
    requires Holds(buf[..], was) && len == |was| && len + 1 < buf.Length
    modifies buf
    ensures Holds(buf[..], was + "/")
  {
    ghost var before := buf[..];
    buf[len] := '/';
    buf[len + 1] := NUL;
    assert buf[..][..len] == before[..len] && buf[..][len..len + 1] == "/";
    HoldsMore(before, buf[..], was, "/");
  }

  /** path_resolve; a null `cwd` or `userPath` is the empty string. The line must fit `work`. */
  method PathResolve(cwd: string, userPath: string, out: array<char>)
    requires NUL !in cwd && NUL !in userPath && out.Length >= FAT_MAX_PATH
    requires if userPath == "" then |cwd| < out.Length else |UserLine(cwd, userPath)| < 512
    modifies out
    ensures Text(out[..], 0) == UserResolved(cwd, userPath)
  {
    if userPath == "" {
      if cwd != "" {
        StrCopy(out, cwd);
        HoldsText(out[..], cwd);
      } else {
        out[0] := '/';
        out[1] := NUL;
        TextIs(out[..], 0, "/");
      }
      return;
    }
    var work := UserJoin(cwd, userPath);
    var parts := new nat[64];
    var top := UserSplit(work, parts, UserLine(cwd, userPath));
    UserWrite(work, parts, top, out);
  }

  /** The raw line as path_resolve builds it, before backslashes are replaced. */
  function RawLine(cwd: string, user: string): (r: string)
    ensures Slashes(r) == UserLine(cwd, user) && |r| == |UserLine(cwd, user)|
  {
    if Absolute(user) then user
    else
      var base := if cwd == "" then "/" else cwd;
      (if Slash(base[|base| - 1]) != '/' then base + "/" else base) + user
  }

  /** The line in `work`, joined and with its backslashes turned. */
  method UserJoin(cwd: string, user: string) returns (work: array<char>)
    requires NUL !in cwd && NUL !in user && user != "" && |UserLine(cwd, user)| < 512
    ensures fresh(work) && Holds(work[..], UserLine(cwd, user))
  {
    hide Holds, UserLine;
    work := new char[512];
    ghost var raw := RawLine(cwd, user);
    if user[0] == '/' || user[0] == '\\' {
      StrCopy(work, user);
    } else {
      var base := if cwd == "" then "/" else cwd;
      StrCopy(work, base);
      HoldsText(work[..], base);
      var len := |Text(work[..], 0)|;
      if work[len - 1] != '/' && work[len - 1] != '\\' {
        AddSlash(work, len, base);
        StrConcat(work, user, base + "/");
      } else {
        StrConcat(work, user, base);
      }
    }
    Replace(work, raw);
  }

  /** Turns every backslash of the line, in place. */
  method Replace(work: array<char>, ghost raw: string)
    requires Holds(work[..], raw)
    modifies work
    ensures Holds(work[..], Slashes(raw))
  {
    hide Holds, Slashes, Slash;
    ghost var before, line := work[..], Slashes(raw);
    Turned(before, raw);
    var p := 0;
    while work[p] != NUL
      invariant p <= |raw| && work[|raw|] == NUL
      invariant forall i :: 0 <= i < p ==> work[i] == line[i]
      invariant forall i :: p <= i < |raw| ==> work[i] == before[i]
      decreases |raw| - p
    {
      if work[p] == '\\' { work[p] := '/'; }
      p := p + 1;
    }
    MakeHolds(before, work[..], raw);
  }

  lemma Turned(buf: seq<char>, raw: string)
    requires Holds(buf, raw)
    ensures |raw| < |buf| && buf[|raw|] == NUL && |Slashes(raw)| == |raw|
    ensures forall i :: 0 <= i < |raw| ==> buf[i] != NUL && Slashes(raw)[i] == if buf[i] == '\\' then '/' else buf[i]
  {
    HoldsText(buf, raw);
  }

  lemma MakeHolds(before: seq<char>, buf: seq<char>, raw: string)
    requires Holds(before, raw) && |raw| < |buf| && buf[|raw|] == NUL && forall i :: 0 <= i < |raw| ==> buf[i] == Slashes(raw)[i]
    ensures Holds(buf, Slashes(raw))
  {
  }
}
