/**
 * The command line of the terminal: `parseCommand` and the dispatch of `executeCommand`
 * (assets/js/agent.js). Dispatch returns the action to take instead of performing it;
 * module Terminal applies it to the page.
 */
module Command {
  import opened Wrappers
  import opened Text

  /** What `parseCommand` returns: a command name and its argument string. */
  datatype Parsed = Parsed(cmd: string, args: string)

  /** The one effect `executeCommand` has for a line. */
  datatype Action =
    | Navigate(path: string)      // navigateTo(path): the browser goes to base + path
    | RunSearch(keyword: string)  // performSearch(keyword)
    | ShowHelp                    // showHelp()
    | ShowError(message: string)  // showError(message)

  const MissingSlug := "Missing article slug. Usage: /read <slug>"
  const MissingKeyword := "Missing keyword. Usage: /search <keyword>"

  function Unrecognized(cmd: string): string {
    "Hmm, I don't recognize '" + cmd + "'. Type /help to see available commands."
  }

  /**
   * A trimmed line that does not start with `/` is a search for the whole line. Otherwise
   * the name is the lower-cased text before the first space (all of it when there is no
   * space) and the argument is what follows that space, trimmed, its case kept.
   */
  function ParseCommand(raw: string): (p: Parsed)
    ensures var t := Trim(raw);
      (t == [] || t[0] != '/') ==> p == Parsed("/search", t)
    ensures var t, k := Trim(raw), |p.cmd|;
      t != [] && t[0] == '/' ==> FirstSpaceSplit(t, k, p)
  {
    ParseTrimmed(Trim(raw))
  }

  /**
   * `k` is the index of the first space of the line `t`, or its length when there is none,
   * and `p` splits `t` there as `parseCommand` does.
   */
  predicate FirstSpaceSplit(t: string, k: nat, p: Parsed) {
    k <= |t| && (forall i :: 0 <= i < k ==> t[i] != ' ') &&
    if k == |t| then p == Parsed(Lower(t), "")
    else t[k] == ' ' && p == Parsed(Lower(t[..k]), Trim(t[k + 1..]))
  }

  /** `parseCommand` after the line has been trimmed; `|p.cmd|` is the index of the first space. */
  function ParseTrimmed(t: string): (p: Parsed)
    ensures (t == [] || t[0] != '/') ==> p == Parsed("/search", t)
    ensures t != [] && t[0] == '/' ==> FirstSpaceSplit(t, |p.cmd|, p)
  {
    if t == [] || t[0] != '/' then Parsed("/search", t) else SplitCommand(t)
  }

  /** The split at `indexOf(' ')`. */
  function SplitCommand(t: string): (p: Parsed)
    ensures FirstSpaceSplit(t, |p.cmd|, p)
  {
    var k := IndexOf(t, " ");
    SpaceIndex(t);
    if k == -1 then SplitAt(t, |t|); Parsed(Lower(t), "")
    else SplitAt(t, k); Parsed(Lower(t[..k]), Trim(t[k + 1..]))
  }

  /** Splitting at the first space, or at the end when there is none, is a FirstSpaceSplit. */
  lemma SplitAt(t: string, k: nat)
    requires k <= |t| && (forall i :: 0 <= i < k ==> t[i] != ' ') && (k < |t| ==> t[k] == ' ')
    ensures k == |t| ==> FirstSpaceSplit(t, k, Parsed(Lower(t), ""))
    ensures k < |t| ==> FirstSpaceSplit(t, k, Parsed(Lower(t[..k]), Trim(t[k + 1..])))
  {
  }

  /** What `indexOf(' ')` says about the line. */
  lemma SpaceIndex(t: string)
    ensures var k := IndexOf(t, " ");
      if k == -1 then NoBlank(t) else 0 <= k < |t| && t[k] == ' ' && forall i :: 0 <= i < k ==> t[i] != ' '
  {
    var k := IndexOf(t, " ");
    assert forall j :: 0 <= j < |t| && t[j] == ' ' ==> OccursAt(" ", t, j);
    if k != -1 {
      assert t[k..k + 1] == " ";
    }
  }

  /** The name always starts with `/` and never holds a space; the argument has no white space at its ends. */
  lemma ParseShape(raw: string)
    ensures var p := ParseCommand(raw);
      p.cmd != [] && p.cmd[0] == '/' && NoBlank(p.cmd) && Trimmed(p.args)
  {
    var t := Trim(raw);
    if t != [] && t[0] == '/' {
      SplitShape(t, ParseCommand(raw));
    }
  }

  lemma SplitShape(t: string, p: Parsed)
    requires t != [] && t[0] == '/' && FirstSpaceSplit(t, |p.cmd|, p)
    ensures p.cmd != [] && p.cmd[0] == '/' && NoBlank(p.cmd) && Trimmed(p.args)
  {
    var k := |p.cmd|;
    if k == |t| {
      LowerKeepsBlank(t);
    } else {
      assert t[..k][0] == '/';
      LowerKeepsBlank(t[..k]);
    }
  }

  /** Parsing ignores white space around the line. */
  lemma ParseIgnoresSurroundingSpace(raw: string)
    ensures ParseCommand(Trim(raw)) == ParseCommand(raw)
  {
    TrimTrimmed(Trim(raw));
  }

  /** A name without white space and a trimmed argument, joined by one space, parse back into the lower-cased name and the argument as it was. */
  lemma ParseNameAndArgument(name: string, arg: string)
    requires NoSpace(name) && Trimmed(arg)
    ensures ParseCommand("/" + name + " " + arg) == Parsed(Lower("/" + name), arg)
  {
    var head := "/" + name;
    assert NoSpace(head) by { assert NoSpace("/"); NoSpaceConcat("/", name); }
    var line := head + " " + arg;
    assert line == "/" + name + " " + arg;
    if arg == [] {
      TrimAfterHead(head, line);
      SplitAllOfHead(head);
    } else {
      LineTrimmed(head, arg, line);
      SplitAtHead(head, arg, line, ParseTrimmed(line));
    }
  }

  lemma TrimAfterHead(head: string, line: string)
    requires head != [] && NoSpace(head) && line == head + " "
    ensures Trim(line) == head
  {
    assert line[..0] == [] && line[..|head|] == head && line[|head|..] == " ";
    TrimUnique(line, 0, |head|);
  }

  lemma SplitAllOfHead(head: string)
    requires head != [] && head[0] == '/' && NoSpace(head)
    ensures ParseTrimmed(head) == Parsed(Lower(head), "")
  {
    var k := |ParseTrimmed(head).cmd|;
    assert k < |head| ==> !IsSpace(head[k]);
  }

  lemma LineTrimmed(head: string, arg: string, line: string)
    requires head != [] && NoSpace(head) && arg != [] && Trimmed(arg) && line == head + " " + arg
    ensures Trim(line) == line
  {
    assert line[0] == head[0];
    assert line[|line| - 1] == arg[|arg| - 1];
    TrimTrimmed(line);
  }

  lemma SplitAtHead(head: string, arg: string, line: string, p: Parsed)
    requires head != [] && head[0] == '/' && NoSpace(head) && Trimmed(arg)
    requires line == head + " " + arg && p == ParseTrimmed(line)
    ensures p == Parsed(Lower(head), arg)
  {
    assert line[0] == '/';
    var k := |p.cmd|;
    assert line[|head|] == ' ';
    assert k < |head| ==> line[k] == head[k] && !IsSpace(head[k]);
    assert k == |head|;
    assert line[..k] == head;
    assert line[k + 1..] == arg;
    TrimTrimmed(arg);
  }

  // The flag pattern of `/posts`: `--tag\s+(\S+)` and `--category\s+(\S+)`.

  /** The pattern `flag\s+(\S+)` matches `s` at index `i`. */
  predicate FlagAt(flag: string, s: string, i: nat) {
    var j := i + |flag|;
    j < |s| && s[i..j] == flag && IsSpace(s[j]) && SkipSpace(s, j) < |s|
  }

  /**
   * The captured group of a match at `i`: the run of non-white-space that starts where the
   * white space after the flag ends, taken as long as it goes.
   */
  function FlagToken(flag: string, s: string, i: nat): (v: string)
    requires FlagAt(flag, s, i)
    ensures v != [] && NoSpace(v)
    ensures exists m ::
      && i + |flag| < m < |s| && AllSpace(s[i + |flag|..m]) && !IsSpace(s[m])
      && m + |v| <= |s| && v == s[m..m + |v|] && (m + |v| == |s| || IsSpace(s[m + |v|]))
  {
    var k := SkipSpace(s, i + |flag|);
    var e := SkipToken(s, k);
    assert k < |s| && !IsSpace(s[k]) && e - k == |s[k..e]|;
    s[k..e]
  }

  /** The index of the leftmost match at or after `from`, or -1, as `String.prototype.match` finds it. */
  function FlagIndexFrom(flag: string, s: string, from: nat): (r: int)
    requires from <= |s|
    ensures r == -1 ==> forall i :: from <= i ==> !FlagAt(flag, s, i)
    ensures r != -1 ==> from <= r < |s| && FlagAt(flag, s, r) && forall j :: from <= j < r ==> !FlagAt(flag, s, j)
    decreases |s| - from
  {
    if FlagAt(flag, s, from) then from
    else if from == |s| then -1
    else FlagIndexFrom(flag, s, from + 1)
  }

  /** `s.match(/flag\s+(\S+)/)`: the capture of the leftmost match, if any. */
  function MatchFlag(flag: string, s: string): (r: Option<string>)
    ensures r.None? <==> forall i: nat :: !FlagAt(flag, s, i)
    ensures r.Some? ==> r.value != [] && NoSpace(r.value)
  {
    var i := FlagIndexFrom(flag, s, 0);
    if i == -1 then None else Some(FlagToken(flag, s, i))
  }

  /** The capture is the one of the leftmost place where the pattern matches. */
  lemma MatchFlagLeftmost(flag: string, s: string, i: nat)
    requires FlagAt(flag, s, i) && forall j :: 0 <= j < i ==> !FlagAt(flag, s, j)
    ensures MatchFlag(flag, s) == Some(FlagToken(flag, s, i))
  {
    var r := FlagIndexFrom(flag, s, 0);
    assert r != -1;
    assert r == i;
  }

  /**
   * The leftmost match, wherever it sits, captures the whole white-space-free value that
   * follows the flag and its white space, and stops at the white space or the end after it.
   */
  lemma FlagCapture(flag: string, pre: string, w: string, v: string, post: string)
    requires w != [] && AllSpace(w) && v != [] && NoSpace(v) && (post == [] || IsSpace(post[0]))
    requires forall i :: 0 <= i < |pre| ==> !FlagAt(flag, pre + flag + w + v + post, i)
    ensures MatchFlag(flag, pre + flag + w + v + post) == Some(v)
  {
    var s := pre + flag + w + v + post;
    FlagPieces(flag, pre, w, v, post, s);
    CaptureAt(flag, s, |pre|, |w|, v);
  }

  /** The capture of a match at `i` that is leftmost, with `n` white-space characters before the value `v`. */
  lemma CaptureAt(flag: string, s: string, i: nat, n: nat, v: string)
    requires var j := i + |flag|; var m := j + n; var e := m + |v|;
      && 0 < n && v != [] && NoSpace(v) && e <= |s| && s[i..j] == flag && s[m..e] == v
      && (forall k :: j <= k < m ==> IsSpace(s[k]))
      && (e < |s| ==> IsSpace(s[e]))
    requires forall k :: 0 <= k < i ==> !FlagAt(flag, s, k)
    ensures MatchFlag(flag, s) == Some(v)
  {
    var j := i + |flag|;
    var m := j + n;
    var e := m + |v|;
    assert SkipSpace(s, j) == m by { SkipSpaceEnds(s, j, m); }
    assert SkipToken(s, m) == e by {
      assert forall k :: m <= k < e ==> s[k] == v[k - m];
      SkipTokenEnds(s, m, e);
    }
    assert FlagToken(flag, s, i) == v by { FlagTokenSpan(flag, s, i, m, e); }
    MatchFlagLeftmost(flag, s, i);
  }

  /** Where the pieces of `pre + flag + w + v + post` sit. */
  lemma FlagPieces(flag: string, pre: string, w: string, v: string, post: string, s: string)
    requires s == pre + flag + w + v + post
    ensures var j := |pre| + |flag|; var m := j + |w|; var e := m + |v|;
      && e <= |s| && s[|pre|..j] == flag && s[m..e] == v
      && (forall k :: j <= k < m ==> s[k] == w[k - j])
      && (e < |s| ==> post != [] && s[e] == post[0])
  {
    var j := |pre| + |flag|;
    var m := j + |w|;
    var e := m + |v|;
    assert s[|pre|..j] == flag;
    assert s[m..e] == v;
  }

  /** The capture is the slice between the ends of the white space and of the token after the flag. */
  lemma FlagTokenSpan(flag: string, s: string, i: nat, m: nat, e: nat)
    requires FlagAt(flag, s, i) && SkipSpace(s, i + |flag|) == m && SkipToken(s, m) == e
    ensures m <= e <= |s| && FlagToken(flag, s, i) == s[m..e]
  {
  }

  /** A flag, one space and a white-space-free value, then the end or white space, read back as that value. */
  lemma FlagRoundTrip(flag: string, v: string, post: string)
    requires v != [] && NoSpace(v) && (post == [] || IsSpace(post[0]))
    ensures MatchFlag(flag, flag + " " + v + post) == Some(v)
  {
    assert [] + flag + " " + v + post == flag + " " + v + post;
    FlagCapture(flag, [], " ", v, post);
  }

  /** `s.replace(/\s+/g, '-')`: every run of white space becomes one `-`. */
  function Slugify(s: string): (r: string)
    ensures NoSpace(r)
    ensures |r| <= |s|
    decreases |s|
  {
    if s == [] then []
    else if IsSpace(s[0]) then
      var k := SkipSpace(s, 0);
      "-" + Slugify(s[k..])
    else
      [s[0]] + Slugify(s[1..])
  }

  /** A slug without white space is left as it is. */
  lemma {:induction false} SlugifyNoSpace(s: string)
    requires NoSpace(s)
    ensures Slugify(s) == s
  {
    if s != [] {
      assert !IsSpace(s[0]);
      SlugifyNoSpace(s[1..]);
    }
  }

  /** The end of a run of white space that is followed by a non-white-space character. */
  lemma SkipSpaceOver(w: string, b: string)
    requires AllSpace(w) && (b == [] || !IsSpace(b[0]))
    ensures SkipSpace(w + b, 0) == |w|
  {
    var s := w + b;
    var r := SkipSpace(s, 0);
    assert forall i :: 0 <= i < |w| ==> s[i] == w[i];
    assert b != [] ==> s[|w|] == b[0];
  }

  /**
   * One run of white space between two words becomes exactly one `-`, and each side is
   * slugged on its own.
   */
  lemma {:induction false} SlugifyJoin(a: string, w: string, b: string)
    requires w != [] && AllSpace(w)
    requires a == [] || !IsSpace(a[|a| - 1])
    requires b == [] || !IsSpace(b[0])
    ensures Slugify(a + w + b) == Slugify(a) + "-" + Slugify(b)
    decreases |a|
  {
    if a == [] {
      JoinAtRun(w, b);
    } else if IsSpace(a[0]) {
      var k := SkipSpace(a, 0);
      assert forall i :: 0 <= i < k ==> IsSpace(a[i]);
      SlugifyJoin(a[k..], w, b);
      JoinAfterRun(a, w, b, k);
    } else {
      SlugifyJoin(a[1..], w, b);
      JoinAfterChar(a, w, b);
    }
  }

  /** The base case of SlugifyJoin: the run itself leads. */
  lemma JoinAtRun(w: string, b: string)
    requires w != [] && AllSpace(w)
    requires b == [] || !IsSpace(b[0])
    ensures Slugify([] + w + b) == Slugify([]) + "-" + Slugify(b)
  {
    var s := w + b;
    assert [] + w + b == s && IsSpace(s[0]);
    SkipSpaceOver(w, b);
    assert s[|w|..] == b;
  }

  /** A step of SlugifyJoin over a leading run of white space `a[..k]`. */
  lemma JoinAfterRun(a: string, w: string, b: string, k: nat)
    requires a != [] && IsSpace(a[0]) && k == SkipSpace(a, 0) && k < |a|
    requires Slugify(a[k..] + w + b) == Slugify(a[k..]) + "-" + Slugify(b)
    ensures Slugify(a + w + b) == Slugify(a) + "-" + Slugify(b)
  {
    var s := a + w + b;
    var rest := a[k..];
    assert s == a[..k] + (rest + w + b);
    SkipSpaceOver(a[..k], rest + w + b);
    assert s[k..] == rest + w + b;
    assert Slugify(s) == "-" + Slugify(rest + w + b);
    assert Slugify(a) == "-" + Slugify(rest);
    PrependJoin("-", Slugify(rest + w + b), Slugify(rest), Slugify(b), Slugify(s), Slugify(a));
  }

  /** A step of SlugifyJoin over a leading character that is not white space. */
  lemma JoinAfterChar(a: string, w: string, b: string)
    requires a != [] && !IsSpace(a[0])
    requires Slugify(a[1..] + w + b) == Slugify(a[1..]) + "-" + Slugify(b)
    ensures Slugify(a + w + b) == Slugify(a) + "-" + Slugify(b)
  {
    SlugifyConsJoin(a, w, b);
    SlugifyCons(a, a[1..]);
    PrependJoin([a[0]], Slugify(a[1..] + w + b), Slugify(a[1..]), Slugify(b), Slugify(a + w + b), Slugify(a));
  }

  /** Slugging a string that starts with a character other than white space keeps that character. */
  lemma SlugifyCons(s: string, tail: string)
    requires s != [] && !IsSpace(s[0]) && tail == s[1..]
    ensures Slugify(s) == [s[0]] + Slugify(tail)
  {
  }

  /** SlugifyCons on the joined string, stated apart so that the caller's context stays small. */
  lemma SlugifyConsJoin(a: string, w: string, b: string)
    requires a != [] && !IsSpace(a[0])
    ensures Slugify(a + w + b) == [a[0]] + Slugify(a[1..] + w + b)
  {
    SlugifyCons(a + w + b, a[1..] + w + b);
  }

  /** The equational step shared by the two inductive cases of SlugifyJoin. */
  lemma PrependJoin(h: string, x: string, y: string, z: string, u: string, v: string)
    requires u == h + x && x == y + "-" + z && v == h + y
    ensures u == v + "-" + z
  {
  }

  /**
   * The target of `/posts`: the listing, narrowed by the first `--tag` value or, failing
   * that, the first `--category` value, URL-encoded by `encode`.
   */
  function PostsPath(args: string, encode: string -> string): (r: string)
    ensures |r| >= 7 && r[..7] == "/posts/"
    ensures r == "/posts/" <==> MatchFlag("--tag", args).None? && MatchFlag("--category", args).None?
  {
    if args == [] then "/posts/"
    else
      match MatchFlag("--tag", args)
      case Some(tag) => "/posts/?tag=" + encode(tag)
      case None =>
        match MatchFlag("--category", args)
        case Some(category) => "/posts/?category=" + encode(category)
        case None => "/posts/"
  }

  /** The command names `executeCommand` knows. */
  const Known: set<string> := {"/home", "/posts", "/read", "/about", "/search", "/help"}

  /**
   * The switch of `executeCommand` on a parsed command. Every navigation is to a path from
   * the site root; a search always has a keyword; the errors are the unknown names and the
   * two commands used without their argument.
   */
  function Dispatch(p: Parsed, encode: string -> string): (a: Action)
    ensures a.Navigate? ==> a.path != [] && a.path[0] == '/'
    ensures a.RunSearch? ==> p.cmd == "/search" && p.args != [] && a.keyword == p.args
    ensures a.ShowHelp? <==> p.cmd == "/help"
    ensures p.cmd == "/home" ==> a == Navigate("/")
    ensures p.cmd == "/about" ==> a == Navigate("/about/")
    ensures a.ShowError? <==> p.cmd !in Known || ((p.cmd == "/read" || p.cmd == "/search") && p.args == [])
  {
    if p.cmd == "/home" then Navigate("/")
    else if p.cmd == "/posts" then Navigate(PostsPath(p.args, encode))
    else if p.cmd == "/read" then
      if p.args != [] then Navigate("/posts/" + Slugify(p.args) + "/") else ShowError(MissingSlug)
    else if p.cmd == "/about" then Navigate("/about/")
    else if p.cmd == "/search" then
      if p.args != [] then RunSearch(p.args) else ShowError(MissingKeyword)
    else if p.cmd == "/help" then ShowHelp
    else ShowError(Unrecognized(p.cmd))
  }

  /** `executeCommand(raw)` as the action it takes: a search keyword is never empty and never has white space at its ends. */
  function Route(raw: string, encode: string -> string): (a: Action)
    ensures a.Navigate? ==> a.path != [] && a.path[0] == '/'
    ensures a.RunSearch? ==> a.keyword != [] && Trimmed(a.keyword)
  {
    ParseShape(raw);
    Dispatch(ParseCommand(raw), encode)
  }

  /** The name a parse yields is lower-cased already, so an unknown-command error quotes it in lower case. */
  lemma UnknownQuotesLowerCase(raw: string, encode: string -> string)
    ensures var p := ParseCommand(raw);
      p.cmd !in Known ==> Route(raw, encode) == ShowError(Unrecognized(p.cmd)) && Lower(p.cmd) == p.cmd
  {
    var p, t := ParseCommand(raw), Trim(raw);
    if p.cmd !in Known {
      assert t != [] && t[0] == '/';
      var k := |p.cmd|;
      LowerIdempotent(if k == |t| then t else t[..k]);
    }
  }

  /** `--tag` wins over a `--category` written after it, through the parser and the pattern together. */
  lemma RoutePostsTagFirst(a: string, b: string, encode: string -> string)
    requires a != [] && NoSpace(a) && b != [] && NoSpace(b)
    ensures Route("/posts --tag " + a + " --category " + b, encode) == Navigate("/posts/?tag=" + encode(a))
  {
    var post := " --category " + b;
    var arg := "--tag " + a + post;
    assert Trimmed(arg) by { assert arg[0] == '-' && arg[|arg| - 1] == b[|b| - 1]; }
    assert "/posts --tag " + a + " --category " + b == "/posts " + arg;
    assert MatchFlag("--tag", arg) == Some(a) by {
      assert "--tag" + " " + a + post == arg;
      FlagRoundTrip("--tag", a, post);
    }
    RoutePosts(arg, encode);
  }

  /**
   * A `--tag` with nothing after it does not match, so `/posts --category c --tag` falls
   * through to the category, unless `c` itself ends in `--tag`.
   */
  lemma RouteBareTagFallsThrough(c: string, encode: string -> string)
    requires c != [] && NoSpace(c) && (|c| < 5 || c[|c| - 5..] != "--tag")
    ensures Route("/posts --category " + c + " --tag", encode) == Navigate("/posts/?category=" + encode(c))
  {
    var post := " --tag";
    var arg := "--category " + c + post;
    assert Trimmed(arg) by { assert arg[0] == '-' && arg[|arg| - 1] == 'g'; }
    assert "/posts --category " + c + " --tag" == "/posts " + arg;
    assert MatchFlag("--tag", arg).None? by { BareTagNeverMatches(c, arg); }
    assert MatchFlag("--category", arg) == Some(c) by {
      assert "--category" + " " + c + post == arg;
      FlagRoundTrip("--category", c, post);
    }
    RoutePosts(arg, encode);
  }

  /** In `--category c --tag` the pattern `--tag\s+\S` matches nowhere. */
  lemma BareTagNeverMatches(c: string, s: string)
    requires NoSpace(c) && (|c| < 5 || c[|c| - 5..] != "--tag") && s == "--category " + c + " --tag"
    ensures forall i: nat :: !FlagAt("--tag", s, i)
  {
    var n := |c|;
    assert |s| == n + 17;
    assert forall k :: 11 <= k < 11 + n ==> s[k] == c[k - 11];
    assert forall k :: 0 <= k < 10 ==> s[k] == "--category"[k];
    assert s[10] == ' ' && s[11 + n] == ' ';
    assert forall k :: 12 + n <= k < 17 + n ==> s[k] == "--tag"[k - 12 - n];
    forall i: nat ensures !FlagAt("--tag", s, i) {
      if i + 5 < |s| && IsSpace(s[i + 5]) {
        assert s[i..i + 5] != "--tag" by {
          assert i + 5 == 10 || i + 5 == 11 + n;
          if i == 5 {
            assert s[i..i + 5][0] == 'e';
          } else if n >= 5 {
            assert s[i..i + 5] == c[n - 5..];
          } else {
            assert s[i..i + 5][10 - i] == ' ';
          }
        }
      }
    }
  }

  /** A line that is not a slash command searches for the trimmed line; an empty one is a missing keyword. */
  lemma RouteBareText(raw: string, encode: string -> string)
    requires Trim(raw) == [] || Trim(raw)[0] != '/'
    ensures Route(raw, encode) == if Trim(raw) == [] then ShowError(MissingKeyword) else RunSearch(Trim(raw))
  {
  }

  /** `/posts` navigates to the listing; a `--tag` value takes precedence over any `--category` value. */
  lemma DispatchPosts(p: Parsed, encode: string -> string)
    requires p.cmd == "/posts"
    ensures var a := p.args;
      Dispatch(p, encode) == Navigate(
        if a == [] then "/posts/"
        else if MatchFlag("--tag", a).Some? then "/posts/?tag=" + encode(MatchFlag("--tag", a).value)
        else if MatchFlag("--category", a).Some? then "/posts/?category=" + encode(MatchFlag("--category", a).value)
        else "/posts/")
  {
  }

  /** Round trip: `/posts --tag v` navigates to the listing filtered by the encoded `v`. */
  lemma RoutePostsTag(v: string, encode: string -> string)
    requires v != [] && NoSpace(v)
    ensures Route("/posts --tag " + v, encode) == Navigate("/posts/?tag=" + encode(v))
  {
    var arg := "--tag " + v;
    assert Trimmed(arg) by { assert arg[0] == '-' && arg[|arg| - 1] == v[|v| - 1]; }
    assert "/posts --tag " + v == "/posts " + arg;
    assert MatchFlag("--tag", arg) == Some(v) by {
      assert "--tag" + " " + v + [] == arg;
      FlagRoundTrip("--tag", v, []);
    }
    RoutePosts(arg, encode);
  }

  /** A `/posts` line routes to the target PostsPath computes from its trimmed argument. */
  lemma RoutePosts(arg: string, encode: string -> string)
    requires Trimmed(arg)
    ensures Route("/posts " + arg, encode) == Navigate(PostsPath(arg, encode))
  {
    ParsePosts(arg);
  }

  lemma ParsePosts(arg: string)
    requires Trimmed(arg)
    ensures ParseCommand("/posts " + arg) == Parsed("/posts", arg)
  {
    assert NoSpace("posts") && NoCapital("posts") by {
      assert forall i :: 0 <= i < 5 ==> "posts"[i] in "posts";
    }
    ParseKnown("posts", arg, "/posts", "/posts " + arg);
  }

  /** `/search` followed by a space and a trimmed argument parses into `/search` and that argument. */
  lemma ParseSearch(arg: string)
    requires Trimmed(arg)
    ensures ParseCommand("/search " + arg) == Parsed("/search", arg)
  {
    assert NoSpace("search") && NoCapital("search") by {
      assert forall i :: 0 <= i < 6 ==> "search"[i] in "search";
    }
    ParseKnown("search", arg, "/search", "/search " + arg);
  }

  /** A lower-case, white-space-free name with a trimmed argument parses back into exactly those two. */
  lemma ParseKnown(name: string, arg: string, head: string, line: string)
    requires NoSpace(name) && NoCapital(name) && Trimmed(arg)
    requires head == "/" + name && line == head + " " + arg
    ensures ParseCommand(line) == Parsed(head, arg)
  {
    assert Lower(head) == head by {
      assert NoCapital(head) by {
        assert forall i :: 1 <= i < |head| ==> head[i] == name[i - 1];
      }
      LowerOfLower(head);
    }
    ParseNameAndArgument(name, arg);
  }

  /** `/read` with a slug goes to the article, white space runs turned into `-`; without one it is an error. */
  lemma DispatchRead(p: Parsed, encode: string -> string)
    requires p.cmd == "/read"
    ensures Dispatch(p, encode) ==
      if p.args == [] then ShowError(MissingSlug) else Navigate("/posts/" + Slugify(p.args) + "/")
    ensures Dispatch(p, encode).Navigate? ==> NoSpace(Dispatch(p, encode).path)
  {
    if p.args != [] {
      assert NoSpace("/posts/") && NoSpace("/");
      NoSpaceConcat("/posts/", Slugify(p.args));
      NoSpaceConcat("/posts/" + Slugify(p.args), "/");
    }
  }

  /** `/search` with a keyword searches for it; without one it is an error and no search runs. */
  lemma DispatchSearch(p: Parsed, encode: string -> string)
    requires p.cmd == "/search"
    ensures Dispatch(p, encode) == if p.args == [] then ShowError(MissingKeyword) else RunSearch(p.args)
  {
  }

  /** An unknown name is an error that quotes the name; it never navigates. */
  lemma DispatchUnknown(p: Parsed, encode: string -> string)
    requires p.cmd !in {"/home", "/posts", "/read", "/about", "/search", "/help"}
    ensures Dispatch(p, encode) == ShowError(Unrecognized(p.cmd))
  {
  }

  /** Only `/home`, `/posts`, `/about` and `/read` with a slug navigate. */
  lemma DispatchNavigates(p: Parsed, encode: string -> string)
    ensures Dispatch(p, encode).Navigate? <==>
      p.cmd in {"/home", "/posts", "/about"} || (p.cmd == "/read" && p.args != [])
  {
  }
}
