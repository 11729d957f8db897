/** array_join and str_split: how a container's command line is stored and read back. */
module CommandLine {
  import opened Bytes

  const BLANK: set<char> := {'\t', '\n', 11 as char, 12 as char, '\r', ' '}

  // ---------------------------------------------------------------- what they compute

  /** How many characters at the head of s are no delimiters. */
  function Span(s: string, delim: set<char>): (k: nat)
    ensures k <= |s| && forall i :: 0 <= i < k ==> s[i] !in delim
    ensures k < |s| ==> s[k] in delim
  {
    if s == [] || s[0] in delim then 0 else 1 + Span(s[1..], delim)
  }

  /** The maximal runs of non-delimiters, in order. */
  function Tokens(s: string, delim: set<char>): seq<string> {
    if s == [] then []
    else if s[0] in delim then Tokens(s[1..], delim)
    else [s[..Span(s, delim)]] + Tokens(s[Span(s, delim)..], delim)
  }

  function Join(args: seq<string>, sep: string): string {
    if args == [] then ""
    else if |args| == 1 then args[0]
    else Join(args[..|args| - 1], sep) + sep + args[|args| - 1]
  }

  function Total(args: seq<string>): nat {
    if args == [] then 0 else Total(args[..|args| - 1]) + |args[|args| - 1]|
  }

  ghost predicate Clean(w: string, delim: set<char>) {
    w != [] && forall i :: 0 <= i < |w| ==> w[i] !in delim
  }

  // ---------------------------------------------------------------- round trips

  lemma SpanOf(w: string, rest: string, delim: set<char>)
    requires forall i :: 0 <= i < |w| ==> w[i] !in delim
    requires rest == [] || rest[0] in delim
    ensures Span(w + rest, delim) == |w|
  {
    assert forall i :: 0 <= i < |w| ==> (w + rest)[i] == w[i];
    assert rest != [] ==> (w + rest)[|w|] == rest[0];
  }

  lemma TokensOfWord(w: string, rest: string, delim: set<char>)
    requires Clean(w, delim) && (rest == [] || rest[0] in delim)
    ensures Tokens(w + rest, delim) == [w] + Tokens(rest, delim)
  {
    SpanOf(w, rest, delim);
    assert (w + rest)[0] == w[0];
    assert (w + rest)[..|w|] == w && (w + rest)[|w|..] == rest;
  }

  /** A text that ends in a delimiter or is empty does not mix with what follows it. */
  lemma {:induction false} TokensAppend(s: string, d: char, t: string, delim: set<char>)
    requires d in delim
    ensures Tokens(s + [d] + t, delim) == Tokens(s, delim) + Tokens(t, delim)
    decreases |s|
  {
    var text := s + [d] + t;
    if s == [] {
      assert text[1..] == t;
    } else if s[0] in delim {
      TokensAppend(s[1..], d, t, delim);
      assert text[1..] == s[1..] + [d] + t;
    } else {
      var k := Span(s, delim);
      TokensAppend(s[k..], d, t, delim);
      assert s == s[..k] + s[k..];
      WordThenAppend(s[..k], s[k..], d, t, delim);
    }
  }

  lemma {:induction false} WordThenAppend(w: string, rest: string, d: char, t: string, delim: set<char>)
    requires d in delim && Clean(w, delim) && (rest == [] || rest[0] in delim)
    requires Tokens(rest + [d] + t, delim) == Tokens(rest, delim) + Tokens(t, delim)
    ensures Tokens((w + rest) + [d] + t, delim) == Tokens(w + rest, delim) + Tokens(t, delim)
  {
    var more := rest + [d] + t;
    assert (w + rest) + [d] + t == w + more;
    assert more[0] == if rest == [] then d else rest[0];
    TokensOfWord(w, more, delim);
    TokensOfWord(w, rest, delim);
  }

  lemma {:induction false} TokensClean(s: string, delim: set<char>, i: nat)
    requires i < |Tokens(s, delim)|
    ensures Clean(Tokens(s, delim)[i], delim)
    decreases |s|
  {
    if s[0] in delim {
      TokensClean(s[1..], delim, i);
    } else if i > 0 {
      TokensClean(s[Span(s, delim)..], delim, i - 1);
    }
  }

  /** The white space of the C locale. */
  lemma BlankIs(c: char)
    ensures c in BLANK <==> c == ' ' || 9 <= c as int <= 13
  {
  }

  /** The characters of s that are no delimiters. */
  function Kept(s: string, delim: set<char>): string {
    if s == [] then [] else (if s[0] in delim then [] else [s[0]]) + Kept(s[1..], delim)
  }

  lemma {:induction false} KeptWord(w: string, rest: string, delim: set<char>)
    requires forall i :: 0 <= i < |w| ==> w[i] !in delim
    ensures Kept(w + rest, delim) == w + Kept(rest, delim)
  {
    if w == [] {
      assert w + rest == rest;
    } else {
      KeptWord(w[1..], rest, delim);
      assert (w + rest)[1..] == w[1..] + rest;
    }
  }

  /** Splitting loses delimiters only: the tokens laid end to end are all the other characters. */
  lemma {:induction false} TokensKeepAll(s: string, delim: set<char>)
    ensures Flatten(Tokens(s, delim)) == Kept(s, delim)
    decreases |s|
  {
    if s == [] {
    } else if s[0] in delim {
      TokensKeepAll(s[1..], delim);
    } else {
      var k := Span(s, delim);
      TokensKeepAll(s[k..], delim);
      FlattenCons(s[..k], Tokens(s[k..], delim));
      KeptWord(s[..k], s[k..], delim);
      assert s == s[..k] + s[k..];
    }
  }

  lemma {:induction false} SplitJoinClean(args: seq<string>)
    requires forall i :: 0 <= i < |args| ==> Clean(args[i], BLANK)
    ensures Tokens(Join(args, " "), BLANK) == args
  {
    if |args| == 1 {
      TokensOfWord(args[0], "", BLANK);
      assert args[0] + "" == args[0];
    } else if |args| > 1 {
      var init, last := args[..|args| - 1], args[|args| - 1];
      SplitJoinClean(init);
      TokensAppend(Join(init, " "), ' ', last, BLANK);
      TokensOfWord(last, "", BLANK);
      assert last + "" == last;
      assert args == init + [last];
    }
  }

  /** A command line survives being stored and read back exactly when every argument is non-empty and
      free of blanks. */
  lemma SplitJoin(args: seq<string>)
    ensures Tokens(Join(args, " "), BLANK) == args <==> forall i :: 0 <= i < |args| ==> Clean(args[i], BLANK)
  {
    if forall i :: 0 <= i < |args| ==> Clean(args[i], BLANK) {
      SplitJoinClean(args);
    }
    if Tokens(Join(args, " "), BLANK) == args {
      forall i | 0 <= i < |args| ensures Clean(args[i], BLANK) {
        TokensClean(Join(args, " "), BLANK, i);
      }
    }
  }

  /** The argument with a blank in it comes back as two. */
  lemma BlankIsLost()
    ensures Tokens(Join(["sh", "-c", "echo hi"], " "), BLANK) != ["sh", "-c", "echo hi"]
  {
    var args := ["sh", "-c", "echo hi"];
    SplitJoin(args);
    assert args[2][4] in BLANK;
  }

  /** Splitting, joining and splitting again is splitting once. */
  lemma SplitIsStable(s: string)
    ensures Tokens(Join(Tokens(s, BLANK), " "), BLANK) == Tokens(s, BLANK)
  {
    forall i | 0 <= i < |Tokens(s, BLANK)| ensures Clean(Tokens(s, BLANK)[i], BLANK) {
      TokensClean(s, BLANK, i);
    }
    SplitJoinClean(Tokens(s, BLANK));
  }

  // ---------------------------------------------------------------- str_split

  lemma SkipOne(s: string, start: nat, delim: set<char>)
    requires start < |s| && s[start] in delim
    ensures Tokens(s[start..], delim) == Tokens(s[start + 1..], delim)
  {
    assert s[start..][1..] == s[start + 1..];
  }

  lemma CutToken(s: string, start: nat, end: nat, delim: set<char>)
    requires start < end <= |s| && (end < |s| ==> s[end] in delim)
    requires forall i :: start <= i < end ==> s[i] !in delim
    ensures Tokens(s[start..], delim)
            == [s[start..end]] + Tokens(s[if end < |s| then end + 1 else end..], delim)
  {
    TokensOfWord(s[start..end], s[end..], delim);
    assert s[start..end] + s[end..] == s[start..];
    if end < |s| {
      SkipOne(s, end, delim);
    }
  }

  method SkipDelims(s: string, pos: nat, delim: set<char>) returns (start: nat)
    requires pos <= |s|
    ensures pos <= start <= |s| && (start < |s| ==> s[start] !in delim)
    ensures Tokens(s[pos..], delim) == Tokens(s[start..], delim)
  {
    start := pos;
    while start < |s| && s[start] in delim
      invariant pos <= start <= |s|
      invariant Tokens(s[pos..], delim) == Tokens(s[start..], delim)
    {
      SkipOne(s, start, delim);
      start := start + 1;
    }
  }

  /** strtok: the next token at or after pos, and where to go on. */
  method StrTok(s: string, pos: nat, delim: set<char>) returns (token: Option<string>, next: nat)
    requires pos <= |s|
    ensures next <= |s| && (token.Some? ==> pos < next)
    ensures Tokens(s[pos..], delim) == if token.None? then [] else [token.value] + Tokens(s[next..], delim)
  {
    var start := SkipDelims(s, pos, delim);
    if start == |s| {
      return None, start;
    }
    var end := start;
    while end < |s| && s[end] !in delim
      invariant start <= end <= |s|
      invariant forall i :: start <= i < end ==> s[i] !in delim
    {
      end := end + 1;
    }
    CutToken(s, start, end, delim);
    token := Some(s[start..end]);
    next := if end < |s| then end + 1 else end;
  }

  /** The first n entries of the array are the arguments. */
  ghost predicate Vector(arr: array<Option<string>>, n: nat, args: seq<string>)
    reads arr
  {
    n == |args| <= arr.Length && forall i :: 0 <= i < n ==> arr[i] == Some(args[i])
  }

  /** arr[n] = token, after a realloc to len slots if the array is full. */
  method Put(arr: array<Option<string>>, n: nat, token: Option<string>, len: nat) returns (arr': array<Option<string>>)
    requires n <= arr.Length < len
    modifies arr
    ensures (arr' == arr || fresh(arr')) && arr'.Length == if n < arr.Length then arr.Length else len
    ensures arr'[n] == token && forall i :: 0 <= i < n ==> arr'[i] == old(arr[i])
  {
    arr' := arr;
    if n >= arr.Length {
      arr' := new Option<string>[len](_ => None);
      forall i | 0 <= i < arr.Length {
        arr'[i] := arr[i];
      }
    }
    arr'[n] := token;
  }

  method PutToken(arr: array<Option<string>>, n: nat, w: string, ghost done: seq<string>) returns (arr': array<Option<string>>)
    requires Vector(arr, n, done) && arr.Length > 0
    modifies arr
    ensures (arr' == arr || fresh(arr')) && arr'.Length >= arr.Length && Vector(arr', n + 1, done + [w])
  {
    arr' := Put(arr, n, Some(w), arr.Length * 2);
  }

  method PutNull(arr: array<Option<string>>, n: nat, ghost done: seq<string>) returns (arr': array<Option<string>>)
    requires Vector(arr, n, done)
    modifies arr
    ensures (arr' == arr || fresh(arr')) && n < arr'.Length && arr'[n] == None && Vector(arr', n, done)
  {
    arr' := Put(arr, n, None, arr.Length + 1);
  }

  lemma Shift(done: seq<string>, w: string, rest: seq<string>)
    ensures done + ([w] + rest) == (done + [w]) + rest
  {
  }

  /** str_split: the tokens, then a NULL, inside the array it allocated. */
  method StrSplit(s: string, delim: set<char>) returns (arr: array<Option<string>>, n: nat)
    ensures n == |Tokens(s, delim)| < arr.Length && arr[n] == None
    ensures forall i :: 0 <= i < n ==> arr[i] == Some(Tokens(s, delim)[i])
  {
    arr := new Option<string>[64](_ => None);
    n := 0;
    var token, pos := StrTok(s, 0, delim);
    assert s[0..] == s;
    ghost var done: seq<string>, left := [], Tokens(s, delim);
    while token.Some?
      invariant arr.Length >= 64 && fresh(arr) && 0 <= pos <= |s| && Vector(arr, n, done)
      invariant Tokens(s, delim) == done + left
      invariant left == if token.None? then [] else [token.value] + Tokens(s[pos..], delim)
      decreases |left|
    {
      var w := token.value;
      ghost var rest := Tokens(s[pos..], delim);
      arr := PutToken(arr, n, w, done);
      Shift(done, w, rest);
      done, left := done + [w], rest;
      token, pos := StrTok(s, pos, delim);
      n := n + 1;
    }
    assert done == Tokens(s, delim);
    arr := PutNull(arr, n, done);
  }

  // ---------------------------------------------------------------- array_join

  lemma {:induction false} JoinLength(args: seq<string>, sep: string)
    requires args != []
    ensures |Join(args, sep)| == Total(args) + |sep| * (|args| - 1)
  {
    if |args| == 1 {
      assert args[..0] == [];
    } else {
      JoinLength(args[..|args| - 1], sep);
      assert |sep| * (|args| - 1) == |sep| * (|args| - 2) + |sep|;
    }
  }

  lemma TotalStep(args: seq<string>, i: nat)
    requires i < |args|
    ensures Total(args[..i + 1]) == Total(args[..i]) + |args[i]|
  {
    assert args[..i + 1][..i] == args[..i];
  }

  lemma JoinStep(args: seq<string>, sep: string, i: nat)
    requires 1 <= i < |args|
    ensures Join(args[..i + 1], sep) == Join(args[..i], sep) + sep + args[i]
  {
    assert args[..i + 1][..i] == args[..i];
  }

  lemma {:induction false} JoinGrows(args: seq<string>, sep: string, i: nat)
    requires 1 <= i <= |args|
    ensures |Join(args[..i], sep)| <= |Join(args, sep)|
    decreases |args| - i
  {
    if i == |args| {
      assert args[..i] == args;
    } else {
      JoinStep(args, sep, i);
      JoinGrows(args, sep, i + 1);
    }
  }

  ghost predicate NulFree(s: string) {
    forall i :: 0 <= i < |s| ==> s[i] != '\0'
  }

  /** buf holds the C string s. */
  ghost predicate Holds(buf: array<char>, s: string)
    reads buf
  {
    |s| < buf.Length && buf[..|s|] == s && buf[|s|] == '\0'
  }

  /** strcat: finds the NUL of what buf holds, copies t there and ends it with a NUL. */
  method StrCat(buf: array<char>, ghost s: string, t: string)
    requires Holds(buf, s) && NulFree(s) && |s| + |t| < buf.Length
    modifies buf
    ensures Holds(buf, s + t)
  {
    var end := 0;
    while buf[end] != '\0'
      invariant 0 <= end <= |s|
      decreases |s| - end
    {
      assert end < |s|;
      end := end + 1;
    }
    assert end == |s|;
    for i := 0 to |t|
      invariant buf[..|s|] == s
      invariant forall k :: 0 <= k < i ==> buf[|s| + k] == t[k]
    {
      buf[end + i] := t[i];
    }
    buf[end + |t|] := '\0';
    assert buf[..|s| + |t|] == s + t;
  }

  /** The first loop of array_join. */
  method TotalLength(args: seq<string>) returns (size: nat)
    ensures size == Total(args)
  {
    size := 0;
    var i := 0;
    while i < |args|
      invariant 0 <= i <= |args| && size == Total(args[..i])
    {
      TotalStep(args, i);
      size := size + |args[i]|;
      i := i + 1;
    }
    assert args[..|args|] == args;
  }

  /** The second loop of array_join. */
  method Fill(buf: array<char>, args: seq<string>, sep: string)
    requires args != [] && buf.Length == |Join(args, sep)| + 1
    requires NulFree(sep) && forall i :: 0 <= i < |args| ==> NulFree(args[i])
    modifies buf
    ensures Holds(buf, Join(args, sep))
  {
    FirstFits(args, sep);
    CopyFirst(buf, args[0]);
    assert Join(args[..1], sep) == args[0];
    var i := 1;
    while i < |args|
      invariant 1 <= i <= |args|
      invariant Holds(buf, Join(args[..i], sep)) && NulFree(Join(args[..i], sep))
    {
      JoinStep(args, sep, i);
      JoinGrows(args, sep, i + 1);
      Extend(buf, Join(args[..i], sep), sep, args[i]);
      i := i + 1;
    }
    assert args[..|args|] == args;
  }

  /** One turn of that loop. */
  method Extend(buf: array<char>, ghost s: string, sep: string, arg: string)
    requires Holds(buf, s) && NulFree(s) && NulFree(sep) && NulFree(arg) && |s + sep + arg| < buf.Length
    modifies buf
    ensures Holds(buf, s + sep + arg) && NulFree(s + sep + arg)
  {
    StrCat(buf, s, sep);
    StrCat(buf, s + sep, arg);
  }

  /** array_join: the arguments with sep between them, in a buffer that fits exactly; nothing when
      there is no argument or only empty ones. */
  method ArrayJoin(args: seq<string>, sep: string) returns (joined: Option<string>)
    requires NulFree(sep) && forall i :: 0 <= i < |args| ==> NulFree(args[i])
    ensures joined == if Total(args) == 0 then None else Some(Join(args, sep))
  {
    var size := TotalLength(args);
    if |args| == 0 || size == 0 {
      return None;
    }
    JoinLength(args, sep);
    var buf := new char[size + |sep| * (|args| - 1) + 1];
    Fill(buf, args, sep);
    joined := Some(buf[..buf.Length - 1]);
  }

  lemma FirstFits(args: seq<string>, sep: string)
    requires args != []
    ensures |args[0]| <= |Join(args, sep)|
  {
    JoinGrows(args, sep, 1);
    assert Join(args[..1], sep) == args[0];
  }

  /** strcpy */
  method CopyFirst(buf: array<char>, s: string)
    requires |s| < buf.Length
    modifies buf
    ensures Holds(buf, s)
  {
    for i := 0 to |s|
      invariant forall k :: 0 <= k < i ==> buf[k] == s[k]
    {
      buf[i] := s[i];
    }
    buf[|s|] := '\0';
  }

  /** What run stores and start then executes, for any arguments: nothing can be stored when there is
      no character at all; otherwise start gets a NULL-terminated vector, and it is the vector run was
      given exactly when every argument is non-empty and free of blanks. */
  method StoreAndReload(args: seq<string>) returns (stored: bool, arr: array<Option<string>>, n: nat)
    requires forall i :: 0 <= i < |args| ==> NulFree(args[i])
    ensures stored <==> exists i :: 0 <= i < |args| && args[i] != ""
    ensures stored ==> n < arr.Length && arr[n] == None && forall i :: 0 <= i < n ==> arr[i].Some?
    ensures stored ==> (Vector(arr, n, args) <==> forall i :: 0 <= i < |args| ==> Clean(args[i], BLANK))
  {
    var command := ArrayJoin(args, " ");
    TotalZero(args);
    if command.None? {
      arr := new Option<string>[0];
      return false, arr, 0;
    }
    stored := true;
    arr, n := StrSplit(command.value, BLANK);
    SplitJoin(args);
    VectorIs(arr, n, Tokens(command.value, BLANK), args);
  }

  lemma VectorIs(arr: array<Option<string>>, n: nat, tokens: seq<string>, args: seq<string>)
    requires Vector(arr, n, tokens)
    ensures Vector(arr, n, args) <==> tokens == args
  {
    if Vector(arr, n, args) {
      forall i | 0 <= i < n ensures tokens[i] == args[i] {
        assert arr[i] == Some(tokens[i]) && arr[i] == Some(args[i]);
      }
    }
  }

  lemma {:induction false} TotalZero(args: seq<string>)
    ensures Total(args) != 0 <==> exists i :: 0 <= i < |args| && args[i] != ""
  {
    if args == [] {
    } else {
      var init, last := args[..|args| - 1], args[|args| - 1];
      TotalZero(init);
      assert forall i :: 0 <= i < |init| ==> init[i] == args[i];
      if Total(init) != 0 {
        var i :| 0 <= i < |init| && init[i] != "";
        assert args[i] != "";
      } else if last != "" {
        assert args[|args| - 1] != "";
      }
    }
  }
}
