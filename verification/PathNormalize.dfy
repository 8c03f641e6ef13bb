/** The path module of the bundled compiler: normalising, resolving and relativising slash-separated paths. */
module PathNormalize {

  // ----- normalising a list of parts

  // One part, read from left to right, on the stack of the parts so far.
  function Entered(stack: seq<string>, part: string, allowAboveRoot: bool): seq<string> {
    if part == "." then stack
    else if part == ".." then
      if stack != [] && stack[|stack| - 1] != ".." then stack[..|stack| - 1]
      else if allowAboveRoot then stack + [".."]
      else stack
    else stack + [part]
  }

  // Evaluating the parts from left to right.
  function EvaluateFrom(stack: seq<string>, parts: seq<string>, allowAboveRoot: bool): seq<string>
    decreases |parts|
  {
    if parts == [] then stack else EvaluateFrom(Entered(stack, parts[0], allowAboveRoot), parts[1..], allowAboveRoot)
  }

  function Evaluate(parts: seq<string>, allowAboveRoot: bool): seq<string> {
    EvaluateFrom([], parts, allowAboveRoot)
  }

  function Ups(n: nat): (s: seq<string>)
    ensures |s| == n && forall k :: 0 <= k < n ==> s[k] == ".."
  {
    seq(n, _ => "..")
  }

  // The scan of the program, from right to left: what it keeps and its final counter.
  function Scan(parts: seq<string>, up: nat): (seq<string>, nat)
    decreases |parts|
  {
    if parts == [] then ([], up)
    else
      var front, last := parts[..|parts| - 1], parts[|parts| - 1];
      if last == "." then Scan(front, up)
      else if last == ".." then Scan(front, up + 1)
      else if up > 0 then Scan(front, up - 1)
      else
        var (kept, rest) := Scan(front, 0);
        (kept + [last], rest)
  }

  function Restored(scan: (seq<string>, nat), allowAboveRoot: bool): seq<string> {
    if allowAboveRoot then Ups(scan.1) + scan.0 else scan.0
  }

  method NormalizeArray(parts0: seq<string>, allowAboveRoot: bool) returns (parts: seq<string>)
    ensures parts == Restored(Scan(parts0, 0), allowAboveRoot)
  {
    parts := parts0;
    var up := 0;
    var i := |parts| - 1;
    ghost var kept: seq<string> := [];
    assert parts0[..i + 1] == parts0;
    assert Scan(parts0, 0).0 + [] == Scan(parts0, 0).0;
    while i >= 0
      invariant -1 <= i < |parts0| && up >= 0
      invariant parts == parts0[..i + 1] + kept
      invariant Scan(parts0, 0) == (Scan(parts0[..i + 1], up).0 + kept, Scan(parts0[..i + 1], up).1)
    {
      var last := parts[i];
      assert parts0[..i + 1][..i] == parts0[..i] && last == parts0[i];
      assert parts[..i] + parts[i + 1..] == parts0[..i] + kept;
      if last == "." {
        parts := parts[..i] + parts[i + 1..];
      } else if last == ".." {
        parts := parts[..i] + parts[i + 1..];
        up := up + 1;
      } else if up > 0 {
        parts := parts[..i] + parts[i + 1..];
        up := up - 1;
      } else {
        assert Scan(parts0[..i + 1], 0).0 + kept == Scan(parts0[..i], 0).0 + ([last] + kept);
        kept := [last] + kept;
      }
      i := i - 1;
    }
    ghost var final := up;
    if allowAboveRoot {
      ghost var below := parts;
      while up > 0
        invariant 0 <= up <= final && parts == Ups(final - up) + below
      {
        up := up - 1;
        parts := [".."] + parts;
      }
    }
  }

  lemma {:induction false} EvaluateConcat(stack: seq<string>, a: seq<string>, b: seq<string>, allow: bool)
    ensures EvaluateFrom(stack, a + b, allow) == EvaluateFrom(EvaluateFrom(stack, a, allow), b, allow)
    decreases |a|
  {
    if a == [] {
      assert a + b == b;
    } else {
      assert (a + b)[0] == a[0] && (a + b)[1..] == a[1..] + b;
      EvaluateConcat(Entered(stack, a[0], allow), a[1..], b, allow);
    }
  }

  lemma EvaluateOne(stack: seq<string>, part: string, rest: seq<string>, allow: bool)
    ensures EvaluateFrom(stack, [part] + rest, allow) == EvaluateFrom(Entered(stack, part, allow), rest, allow)
  {
    assert ([part] + rest)[1..] == rest;
  }

  // Only leading parts of a stack are "..", and none is ".".
  predicate Normal(stack: seq<string>, allow: bool) {
    && (forall k :: 0 <= k < |stack| ==> stack[k] != ".")
    && (forall k :: 0 <= k < |stack| && stack[k] == ".." ==> allow && forall j :: 0 <= j < k ==> stack[j] == "..")
  }

  lemma {:induction false} EvaluateNormal(stack: seq<string>, parts: seq<string>, allow: bool)
    requires Normal(stack, allow)
    ensures Normal(EvaluateFrom(stack, parts, allow), allow)
    decreases |parts|
  {
    if parts == [] {
    } else {
      EvaluateNormal(Entered(stack, parts[0], allow), parts[1..], allow);
    }
  }

  lemma {:induction false} EvaluateUps(n: nat, m: nat, allow: bool)
    ensures EvaluateFrom(if allow then Ups(m) else [], Ups(n), allow) == if allow then Ups(m + n) else []
    decreases n
  {
    if n == 0 {
    } else {
      EvaluateUps(n - 1, m + 1, allow);
      assert Ups(n)[1..] == Ups(n - 1);
      assert Ups(m) + [".."] == Ups(m + 1);
    }
  }

  lemma EvaluateLast(parts: seq<string>, up: nat, allow: bool)
    requires parts != []
    ensures var front, last := parts[..|parts| - 1], parts[|parts| - 1];
            Evaluate(parts + Ups(up), allow)
                == EvaluateFrom(Entered(Evaluate(front, allow), last, allow), Ups(up), allow)
  {
    hide EvaluateFrom, Entered, Ups;
    var front, last := parts[..|parts| - 1], parts[|parts| - 1];
    assert parts + Ups(up) == front + ([last] + Ups(up));
    EvaluateConcat([], front, [last] + Ups(up), allow);
    EvaluateOne(Evaluate(front, allow), last, Ups(up), allow);
  }

  lemma EvaluateThenUps(parts: seq<string>, n: nat, allow: bool)
    ensures Evaluate(parts + Ups(n), allow) == EvaluateFrom(Evaluate(parts, allow), Ups(n), allow)
    ensures Evaluate(Ups(n), allow) == if allow then Ups(n) else []
    ensures parts + Ups(0) == parts
  {
    EvaluateConcat([], parts, Ups(n), allow);
    EvaluateUps(n, 0, allow);
  }

  lemma OneMoreUp(stack: seq<string>, n: nat, allow: bool)
    ensures EvaluateFrom(stack, Ups(n + 1), allow) == EvaluateFrom(Entered(stack, "..", allow), Ups(n), allow)
    ensures EvaluateFrom(stack, Ups(0), allow) == stack
  {
    assert Ups(n + 1)[1..] == Ups(n);
  }

  // A part that a following ".." takes back.
  lemma TakenBack(stack: seq<string>, part: string, allow: bool)
    requires part != "." && part != ".."
    ensures Entered(Entered(stack, part, allow), "..", allow) == stack
  {
    assert (stack + [part])[..|stack|] == stack;
  }

  // The counter of the scan stands for as many ".." after the parts still to be read.
  lemma {:induction false} ScanIsEvaluation(parts: seq<string>, up: nat, allow: bool)
    ensures Restored(Scan(parts, up), allow) == Evaluate(parts + Ups(up), allow)
    decreases |parts|
  {
    hide EvaluateFrom, Evaluate, Ups;
    EvaluateThenUps([], up, allow);
    if parts == [] {
      assert [] + Ups(up) == Ups(up) && Ups(up) + [] == Ups(up);
    } else {
      var front, last := parts[..|parts| - 1], parts[|parts| - 1];
      var stack := Evaluate(front, allow);
      EvaluateLast(parts, up, allow);
      if last == "." {
        ScanIsEvaluation(front, up, allow);
        EvaluateThenUps(front, up, allow);
      } else if last == ".." {
        ScanIsEvaluation(front, up + 1, allow);
        EvaluateThenUps(front, up + 1, allow);
        OneMoreUp(stack, up, allow);
      } else if up > 0 {
        ScanIsEvaluation(front, up - 1, allow);
        EvaluateThenUps(front, up - 1, allow);
        OneMoreUp(stack + [last], up - 1, allow);
        TakenBack(stack, last, allow);
      } else {
        ScanIsEvaluation(front, 0, allow);
        EvaluateThenUps(front, 0, allow);
        OneMoreUp(stack, 0, allow);
        OneMoreUp(stack + [last], 0, allow);
      }
    }
  }

  // The right-to-left scan is the left-to-right evaluation.
  lemma NormalizeIsEvaluation(parts: seq<string>, allow: bool)
    ensures Restored(Scan(parts, 0), allow) == Evaluate(parts, allow)
  {
    ScanIsEvaluation(parts, 0, allow);
    assert parts + Ups(0) == parts;
  }

  lemma {:induction false} NormalIsFixed(stack: seq<string>, parts: seq<string>, allow: bool)
    requires Normal(stack + parts, allow)
    ensures EvaluateFrom(stack, parts, allow) == stack + parts
    decreases |parts|
  {
    if parts != [] {
      assert (stack + parts)[|stack|] == parts[0];
      assert forall j | 0 <= j < |stack| :: (stack + parts)[j] == stack[j];
      assert (stack + [parts[0]]) + parts[1..] == stack + parts;
      NormalIsFixed(stack + [parts[0]], parts[1..], allow);
    } else {
      assert stack + parts == stack;
    }
  }

  // Normalising is idempotent, and its results have "." nowhere and ".." only in front.
  lemma NormalizeIdempotent(parts: seq<string>, allow: bool)
    ensures var n := Restored(Scan(parts, 0), allow);
            Normal(n, allow) && Restored(Scan(n, 0), allow) == n
  {
    var n := Restored(Scan(parts, 0), allow);
    NormalizeIsEvaluation(parts, allow);
    EvaluateNormal([], parts, allow);
    NormalizeIsEvaluation(n, allow);
    assert [] + n == n;
    NormalIsFixed([], n, allow);
  }

  // ----- slash-separated paths

  // split('/')
  function Split(s: string): (ps: seq<string>)
    ensures |ps| >= 1
  {
    if s == "" then [""] else Cut(s[0], Split(s[1..]))
  }

  // The pieces once one more character comes in front.
  function Cut(c: char, pieces: seq<string>): (ps: seq<string>)
    requires pieces != []
    ensures |ps| >= 1
  {
    if c == '/' then [""] + pieces else [[c] + pieces[0]] + pieces[1..]
  }

  lemma CutConcat(c: char, pieces: seq<string>, more: seq<string>)
    requires pieces != []
    ensures Cut(c, pieces + more) == Cut(c, pieces) + more
  {
    assert (pieces + more)[1..] == pieces[1..] + more;
  }

  // join('/')
  function Join(ps: seq<string>): string {
    if ps == [] then "" else if |ps| == 1 then ps[0] else ps[0] + "/" + Join(ps[1..])
  }

  // filter(parts, p => !!p)
  function NonEmpty(ps: seq<string>): seq<string> {
    if ps == [] then [] else (if ps[0] != "" then [ps[0]] else []) + NonEmpty(ps[1..])
  }

  function PartsOf(s: string): seq<string> {
    NonEmpty(Split(s))
  }

  // A part of a path: not empty and without a slash.
  predicate Proper(p: string) {
    p != "" && '/' !in p
  }

  predicate AllProper(ps: seq<string>) {
    forall p :: p in ps ==> Proper(p)
  }

  lemma CutSlash(pieces: seq<string>)
    requires pieces != []
    ensures Cut('/', pieces) == [""] + pieces
  {
  }

  lemma {:induction false} SplitAtSlash(a: string, t: string)
    requires t != "" && t[0] == '/'
    ensures Split(a + t) == Split(a) + Split(t[1..])
  {
    hide Cut;
    if a == "" {
      assert a + t == t;
      CutSlash(Split(t[1..]));
    } else {
      SplitAtSlash(a[1..], t);
      assert (a + t)[0] == a[0] && (a + t)[1..] == a[1..] + t;
      CutConcat(a[0], Split(a[1..]), Split(t[1..]));
    }
  }

  lemma SplitSlash(a: string, b: string)
    ensures Split(a + "/" + b) == Split(a) + Split(b)
  {
    hide Split;
    var t := "/" + b;
    assert t[1..] == b;
    assert a + "/" + b == a + t;
    SplitAtSlash(a, t);
  }

  lemma {:induction false} NonEmptyConcat(ps: seq<string>, qs: seq<string>)
    ensures NonEmpty(ps + qs) == NonEmpty(ps) + NonEmpty(qs)
  {
    if ps == [] {
      assert ps + qs == qs;
    } else {
      assert (ps + qs)[0] == ps[0] && (ps + qs)[1..] == ps[1..] + qs;
      NonEmptyConcat(ps[1..], qs);
    }
  }

  lemma PartsConcat(a: string, b: string)
    ensures PartsOf(a + "/" + b) == PartsOf(a) + PartsOf(b)
  {
    SplitSlash(a, b);
    NonEmptyConcat(Split(a), Split(b));
  }

  lemma {:induction false} SplitProper(s: string, k: nat)
    requires k < |Split(s)|
    ensures '/' !in Split(s)[k]
  {
    if s == "" {
    } else {
      if s[0] == '/' {
        if k > 0 {
          SplitProper(s[1..], k - 1);
        }
      } else {
        SplitProper(s[1..], k);
      }
    }
  }

  lemma {:induction false} NonEmptyProper(ps: seq<string>)
    requires forall k :: 0 <= k < |ps| ==> '/' !in ps[k]
    ensures AllProper(NonEmpty(ps))
  {
    if ps == [] {
    } else {
      NonEmptyProper(ps[1..]);
    }
  }

  lemma PartsProper(s: string)
    ensures AllProper(PartsOf(s))
  {
    forall k | 0 <= k < |Split(s)|
      ensures '/' !in Split(s)[k]
    {
      SplitProper(s, k);
    }
    NonEmptyProper(Split(s));
  }

  lemma {:induction false} SplitOne(p: string)
    requires '/' !in p
    ensures Split(p) == [p]
  {
    if p == "" {
    } else {
      assert p[0] in p && forall c | c in p[1..] :: c in p;
      SplitOne(p[1..]);
      assert [p[0]] + p[1..] == p;
    }
  }

  lemma {:induction false} SplitJoin(ps: seq<string>)
    requires AllProper(ps) && ps != []
    ensures Split(Join(ps)) == ps
  {
    assert Proper(ps[0]);
    SplitOne(ps[0]);
    if |ps| == 1 {
      assert ps == [ps[0]];
    } else {
      assert forall p | p in ps[1..] :: p in ps;
      SplitJoin(ps[1..]);
      SplitSlash(ps[0], Join(ps[1..]));
      assert ps == [ps[0]] + ps[1..];
    }
  }

  lemma {:induction false} NonEmptyAll(ps: seq<string>)
    requires AllProper(ps)
    ensures NonEmpty(ps) == ps
  {
    if ps == [] {
    } else {
      assert Proper(ps[0]);
      assert forall p | p in ps[1..] :: p in ps;
      NonEmptyAll(ps[1..]);
    }
  }

  lemma PartsJoin(ps: seq<string>)
    requires AllProper(ps)
    ensures PartsOf(Join(ps)) == ps
  {
    if ps == [] {
      assert Split("") == [""] && NonEmpty([""][1..]) == [];
    } else {
      SplitJoin(ps);
      NonEmptyAll(ps);
    }
  }

  // ----- resolving

  // The arguments from right to left up to the first absolute one, put in front of what has been gathered.
  function Gathered(args: seq<string>, cwd: string, gathered: string): string
    decreases |args|
  {
    if args == [] then (if cwd == "" then gathered else cwd + "/" + gathered)
    else
      var front, last := args[..|args| - 1], args[|args| - 1];
      if last == "" then Gathered(front, cwd, gathered)
      else if last[0] == '/' then last + "/" + gathered
      else Gathered(front, cwd, last + "/" + gathered)
  }

  predicate StartsWithSlash(s: string) {
    s != "" && s[0] == '/'
  }

  // Whether one of them, or else the working directory, is absolute.
  predicate Anchored(args: seq<string>, cwd: string) {
    (exists k :: 0 <= k < |args| && StartsWithSlash(args[k])) || StartsWithSlash(cwd)
  }

  function OrDot(s: string): string {
    if s == "" then "." else s
  }

  // path.resolve: absolute whenever the working directory is.
  function Resolved(args: seq<string>, cwd: string): (r: string)
    ensures r != "" && (StartsWithSlash(cwd) ==> r[0] == '/')
  {
    var absolute := Anchored(args, cwd);
    OrDot((if absolute then "/" else "") + Join(Evaluate(PartsOf(Gathered(args, cwd, "")), !absolute)))
  }

  lemma AnchoredLast(args: seq<string>, cwd: string)
    requires args != []
    ensures Anchored(args, cwd) <==> StartsWithSlash(args[|args| - 1]) || Anchored(args[..|args| - 1], cwd)
  {
    var front := args[..|args| - 1];
    assert forall k | 0 <= k < |front| :: front[k] == args[k];
    if k :| 0 <= k < |args| && StartsWithSlash(args[k]) {
      assert k < |front| ==> StartsWithSlash(front[k]);
    }
  }

  method Resolve(args: seq<string>, cwd: string) returns (path: string)
    ensures path == Resolved(args, cwd)
  {
    hide Anchored;
    var resolvedPath, resolvedAbsolute := "", false;
    var i := |args| - 1;
    assert args[..i + 1] == args;
    while i >= 0 && !resolvedAbsolute
      invariant -1 <= i < |args|
      invariant resolvedAbsolute ==> Anchored(args, cwd) && resolvedPath == Gathered(args, cwd, "")
      invariant !resolvedAbsolute ==> (Anchored(args[..i + 1], cwd) <==> Anchored(args, cwd))
      invariant !resolvedAbsolute ==> Gathered(args[..i + 1], cwd, resolvedPath) == Gathered(args, cwd, "")
    {
      assert args[..i + 1][..i] == args[..i] && args[..i + 1][i] == args[i];
      AnchoredLast(args[..i + 1], cwd);
      var part := args[i];
      if part != "" {
        resolvedPath := part + "/" + resolvedPath;
        resolvedAbsolute := part[0] == '/';
      }
      i := i - 1;
    }
    if !resolvedAbsolute {
      assert args[..i + 1] == [];
      AnchoredNone(cwd);
      if cwd != "" {
        resolvedPath := cwd + "/" + resolvedPath;
        resolvedAbsolute := cwd[0] == '/';
      }
    }
    var parts := NormalizeArray(PartsOf(resolvedPath), !resolvedAbsolute);
    NormalizeIsEvaluation(PartsOf(resolvedPath), !resolvedAbsolute);
    path := OrDot((if resolvedAbsolute then "/" else "") + Join(parts));
  }

  lemma AnchoredNone(cwd: string)
    ensures Anchored([], cwd) <==> StartsWithSlash(cwd)
  {
  }

  // ----- relativising

  // Removes empty parts at both ends, as the program does it.
  function FirstNonEmpty(ps: seq<string>, from: nat): (k: nat)
    requires from <= |ps|
    ensures from <= k <= |ps|
    decreases |ps| - from
  {
    if from == |ps| || ps[from] != "" then from else FirstNonEmpty(ps, from + 1)
  }

  function LastNonEmpty(ps: seq<string>, to: nat): (k: int)
    requires to <= |ps|
    ensures -1 <= k < to || (to == 0 && k == -1)
  {
    if to == 0 then -1 else if ps[to - 1] != "" then to - 1 else LastNonEmpty(ps, to - 1)
  }

  // slice(start, end - start + 1)
  function Trim(ps: seq<string>): seq<string> {
    var start, end := FirstNonEmpty(ps, 0), LastNonEmpty(ps, |ps|);
    if start > end then []
    else if end - start + 1 <= start then [] else ps[start..end - start + 1]
  }

  function Common(a: seq<string>, b: seq<string>): (n: nat)
    ensures n <= |a| && n <= |b| && a[..n] == b[..n]
    ensures n < |a| && n < |b| ==> a[n] != b[n]
  {
    if a == [] || b == [] || a[0] != b[0] then 0
    else
      var n := Common(a[1..], b[1..]) + 1;
      assert a[..n] == [a[0]] + a[1..][..n - 1] && b[..n] == [b[0]] + b[1..][..n - 1];
      n
  }

  function RelativeParts(fromParts: seq<string>, toParts: seq<string>): seq<string> {
    var n := Common(fromParts, toParts);
    Ups(|fromParts| - n) + toParts[n..]
  }

  method Relative(from: string, to: string, cwd: string) returns (path: string)
    ensures path == Join(RelativeParts(Trim(Split(Resolved([from], cwd)[1..])), Trim(Split(Resolved([to], cwd)[1..]))))
  {
    hide Resolved, Trim, Split, Join, Common;
    var absoluteFrom := Resolve([from], cwd);
    var absoluteTo := Resolve([to], cwd);
    var fromParts := Trim(Split(absoluteFrom[1..]));
    var toParts := Trim(Split(absoluteTo[1..]));
    var length := if |fromParts| < |toParts| then |fromParts| else |toParts|;
    var samePartsLength := length;
    for i := 0 to length
      invariant samePartsLength == length && fromParts[..i] == toParts[..i]
    {
      if fromParts[i] != toParts[i] {
        samePartsLength := i;
        break;
      }
      assert fromParts[..i + 1] == fromParts[..i] + [fromParts[i]] && toParts[..i + 1] == toParts[..i] + [toParts[i]];
    }
    CommonUnique(fromParts, toParts, samePartsLength);
    var outputParts: seq<string> := [];
    for i := samePartsLength to |fromParts|
      invariant outputParts == Ups(i - samePartsLength)
    {
      outputParts := outputParts + [".."];
    }
    outputParts := outputParts + toParts[samePartsLength..];
    path := Join(outputParts);
  }

  lemma {:induction false} CommonUnique(a: seq<string>, b: seq<string>, n: nat)
    requires n <= |a| && n <= |b| && a[..n] == b[..n]
    requires n < |a| && n < |b| ==> a[n] != b[n]
    ensures Common(a, b) == n
  {
    if n == 0 {
    } else {
      assert a[0] == a[..n][0] == b[..n][0] == b[0];
      assert a[1..][..n - 1] == a[..n][1..] && b[1..][..n - 1] == b[..n][1..];
      CommonUnique(a[1..], b[1..], n - 1);
    }
  }

  // ----- resolving against a relative path gives the target

  function GatheredParts(args: seq<string>, cwd: string): seq<string>
    decreases |args|
  {
    if args == [] then PartsOf(cwd)
    else
      var front, last := args[..|args| - 1], args[|args| - 1];
      if last == "" then GatheredParts(front, cwd)
      else if last[0] == '/' then PartsOf(last)
      else GatheredParts(front, cwd) + PartsOf(last)
  }

  lemma {:induction false} GatheredInParts(args: seq<string>, cwd: string, gathered: string)
    requires cwd != ""
    ensures PartsOf(Gathered(args, cwd, gathered)) == GatheredParts(args, cwd) + PartsOf(gathered)
    decreases |args|
  {
    if args == [] {
      PartsConcat(cwd, gathered);
    } else {
      var front, last := args[..|args| - 1], args[|args| - 1];
      PartsConcat(last, gathered);
      if last == "" {
        GatheredInParts(front, cwd, gathered);
      } else if last[0] != '/' {
        GatheredInParts(front, cwd, last + "/" + gathered);
      }
    }
  }

  lemma {:induction false} EvaluateProper(stack: seq<string>, parts: seq<string>)
    requires AllProper(stack) && AllProper(parts) && Normal(stack, false)
    ensures AllProper(EvaluateFrom(stack, parts, false)) && Normal(EvaluateFrom(stack, parts, false), false)
    decreases |parts|
  {
    if parts == [] {
    } else {
      assert Proper(parts[0]);
      EvaluateProper(Entered(stack, parts[0], false), parts[1..]);
    }
  }

  lemma ResolvedParts(args: seq<string>, cwd: string)
    requires StartsWithSlash(cwd)
    ensures Resolved(args, cwd) == "/" + Join(Evaluate(GatheredParts(args, cwd), false))
    ensures AllProper(Evaluate(GatheredParts(args, cwd), false))
        && Normal(Evaluate(GatheredParts(args, cwd), false), false)
  {
    GatheredInParts(args, cwd, "");
    PartsJoin([]);
    assert GatheredParts(args, cwd) + [] == GatheredParts(args, cwd);
    PartsProper(Gathered(args, cwd, ""));
    EvaluateProper([], GatheredParts(args, cwd));
  }

  lemma TrimSplitJoin(ps: seq<string>)
    requires AllProper(ps)
    ensures Trim(Split(Join(ps))) == ps
  {
    if ps == [] {
      assert Split("") == [""];
    } else {
      SplitJoin(ps);
      assert Proper(ps[0]) && Proper(ps[|ps| - 1]);
    }
  }

  lemma {:induction false} PopAll(stack: seq<string>, n: nat)
    requires n <= |stack| && Normal(stack, false)
    ensures EvaluateFrom(stack, Ups(n), false) == stack[..|stack| - n]
    decreases n
  {
    if n == 0 {
    } else {
      assert stack[|stack| - 1] != "..";
      assert Ups(n)[1..] == Ups(n - 1);
      var below := stack[..|stack| - 1];
      PopAll(below, n - 1);
      assert below[..|below| - (n - 1)] == stack[..|stack| - n];
    }
  }

  // Going from F by the relative parts leads to T.
  lemma FollowRelative(f: seq<string>, t: seq<string>)
    requires Normal(f, false) && Normal(t, false)
    ensures EvaluateFrom(f, RelativeParts(f, t), false) == t
  {
    hide EvaluateFrom, Normal, Common;
    var n := Common(f, t);
    var front, back := t[..n], t[n..];
    EvaluateConcat(f, Ups(|f| - n), back, false);
    PopAll(f, |f| - n);
    assert front == f[..|f| - (|f| - n)];
    assert front + back == t;
    NormalIsFixed(front, back, false);
  }

  // One part, entered from f, saves at most one part of the way.
  lemma OnePartSaved(f: seq<string>, part: string, t: seq<string>)
    requires Normal(f, false)
    ensures |RelativeParts(f, t)| <= 1 + |RelativeParts(Entered(f, part, false), t)|
  {
    var n := Common(f, t);
    if part == ".." && f != [] {
      var m := |f| - 1;
      var n' := if n < |f| then n else m;
      assert f[..m][..n'] == f[..n][..n'] == t[..n'];
      CommonUnique(f[..m], t, n');
    } else if part != "." && part != ".." {
      var f' := f + [part];
      if n == |f| && n < |t| && t[n] == part {
        assert f'[..n + 1] == f[..n] + [part] == t[..n + 1];
        CommonUnique(f', t, n + 1);
      } else {
        assert f'[..n] == f[..n];
        CommonUnique(f', t, n);
      }
    }
  }

  // No shorter list of parts leads from f to t: the relative path goes up no further than it has to.
  lemma {:induction false} RelativeShortest(f: seq<string>, t: seq<string>, parts: seq<string>)
    requires Normal(f, false) && EvaluateFrom(f, parts, false) == t
    ensures |RelativeParts(f, t)| <= |parts|
    decreases |parts|
  {
    if parts == [] {
      CommonUnique(f, f, |f|);
    } else {
      OnePartSaved(f, parts[0], t);
      EnteredNormal(f, parts[0]);
      RelativeShortest(Entered(f, parts[0], false), t, parts[1..]);
    }
  }

  lemma EnteredNormal(f: seq<string>, part: string)
    requires Normal(f, false)
    ensures Normal(Entered(f, part, false), false)
  {
  }

  // path.resolve(from, path.relative(from, to)) is path.resolve(to), for all paths and any absolute working directory.
  lemma ResolveRelative(from: string, to: string, cwd: string)
    requires StartsWithSlash(cwd)
    ensures
      var relative := Join(RelativeParts(Trim(Split(Resolved([from], cwd)[1..])),
                                         Trim(Split(Resolved([to], cwd)[1..]))));
      Resolved([from, relative], cwd) == Resolved([to], cwd)
  {
    hide Evaluate, Normal, Trim, RelativeParts, GatheredParts, Resolved;
    var x, y := GatheredParts([from], cwd), GatheredParts([to], cwd);
    var f, t := Evaluate(x, false), Evaluate(y, false);
    ResolvedParts([from], cwd);
    ResolvedParts([to], cwd);
    TrimSplitJoin(f);
    TrimSplitJoin(t);
    assert ("/" + Join(f))[1..] == Join(f) && ("/" + Join(t))[1..] == Join(t);
    var rel := RelativeParts(f, t);
    RelativeProper(f, t);
    FollowRelative(f, t);
    PartsJoin(rel);
    ResolvedParts([from, Join(rel)], cwd);
    GatherTwo(from, rel, cwd);
    EvaluateTwo(x, rel);
  }

  lemma RelativeProper(f: seq<string>, t: seq<string>)
    requires AllProper(t)
    ensures AllProper(RelativeParts(f, t))
  {
    var n := Common(f, t);
    assert forall p | p in t[n..] :: p in t;
  }

  lemma JoinStart(ps: seq<string>)
    requires AllProper(ps)
    ensures Join(ps) == "" <==> ps == []
    ensures ps != [] ==> Join(ps)[0] != '/'
  {
    if ps != [] {
      assert Proper(ps[0]);
      assert ps[0][0] in ps[0];
      assert Join(ps)[0] == ps[0][0];
    }
  }

  lemma GatherTwo(from: string, rel: seq<string>, cwd: string)
    requires AllProper(rel)
    ensures GatheredParts([from, Join(rel)], cwd) == GatheredParts([from], cwd) + rel
  {
    JoinStart(rel);
    PartsJoin(rel);
    assert [from, Join(rel)][..1] == [from];
    assert GatheredParts([from], cwd) + [] == GatheredParts([from], cwd);
  }

  lemma EvaluateTwo(x: seq<string>, rel: seq<string>)
    ensures Evaluate(x + rel, false) == EvaluateFrom(Evaluate(x, false), rel, false)
  {
    EvaluateConcat([], x, rel, false);
  }
}
