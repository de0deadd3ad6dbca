/** The `{}` substitution of log messages: the scan, against splitting the format
    string at its holes and interleaving the arguments. */
module Message {

  const HOLE := "{}"

  predicate HoleAt(s: string, i: nat) {
    i + 1 < |s| && s[i] == '{' && s[i + 1] == '}'
  }

  predicate HoleFree(s: string) {
    forall i :: 0 <= i < |s| ==> !HoleAt(s, i)
  }

  /** Where the leftmost hole starts, or the length if there is none. */
  function FirstHole(s: string): (k: nat)
    ensures k <= |s| && (k < |s| ==> HoleAt(s, k)) && forall i :: 0 <= i < k ==> !HoleAt(s, i)
  {
    if s == "" || HoleAt(s, 0) then 0
    else
      var k := FirstHole(s[1..]) + 1;
      assert forall i :: 1 <= i < k ==> HoleAt(s, i) == HoleAt(s[1..], i - 1);
      k
  }

  lemma FirstHoleUnique(s: string, k: nat)
    requires k <= |s| && (k < |s| ==> HoleAt(s, k)) && forall i :: 0 <= i < k ==> !HoleAt(s, i)
    ensures FirstHole(s) == k
  {
  }

  /** The text between the holes, split at the leftmost hole first. */
  function Pieces(s: string): (ps: seq<string>)
    ensures ps != []
    decreases |s|
  {
    var k := FirstHole(s);
    if k == |s| then [s] else [s[..k]] + Pieces(s[k + 2..])
  }

  function Join(ps: seq<string>): string
    requires ps != []
  {
    if |ps| == 1 then ps[0] else ps[0] + HOLE + Join(ps[1..])
  }

  /** Pieces with one argument after each but the last, and the hole itself once the
      arguments have run out. */
  function Interleave(ps: seq<string>, args: seq<string>): string
    requires ps != []
  {
    if |ps| == 1 then ps[0]
    else if args == [] then ps[0] + HOLE + Interleave(ps[1..], [])
    else ps[0] + args[0] + Interleave(ps[1..], args[1..])
  }

  function Text(fmt: string, args: seq<string>): string {
    Interleave(Pieces(fmt), args)
  }

  // ---- What the split is -----------------------------------------------------------

  lemma FrontIsHoleFree(s: string)
    ensures HoleFree(s[..FirstHole(s)])
  {
    var k := FirstHole(s);
    forall i | 0 <= i < k ensures !HoleAt(s[..k], i) {
      assert !HoleAt(s, i);
    }
  }

  lemma {:induction false} PiecesJoin(s: string)
    ensures Join(Pieces(s)) == s && forall i :: 0 <= i < |Pieces(s)| ==> HoleFree(Pieces(s)[i])
    decreases |s|
  {
    var k := FirstHole(s);
    FrontIsHoleFree(s);
    if k < |s| {
      PiecesJoin(s[k + 2..]);
      assert s == s[..k] + HOLE + s[k + 2..];
      assert Pieces(s)[1..] == Pieces(s[k + 2..]);
    } else {
      assert s[..k] == s;
    }
  }

  /** A piece ends where the first hole of the whole starts: no hole straddles the seam. */
  lemma HoleAfterPiece(p: string, rest: string)
    requires HoleFree(p)
    ensures FirstHole(p + HOLE + rest) == |p|
  {
    var s := p + HOLE + rest;
    assert s[|p|] == '{' && s[|p| + 1] == '}';
    forall i | 0 <= i < |p| ensures !HoleAt(s, i) {
      assert s[i] == p[i] && !HoleAt(p, i);
    }
    FirstHoleUnique(s, |p|);
  }

  /** The split is the only way to write the format string as hole-free pieces
      joined by holes. */
  lemma {:induction false} SplitUnique(s: string, ps: seq<string>)
    requires ps != []
    ensures ps == Pieces(s) <==> Join(ps) == s && forall i :: 0 <= i < |ps| ==> HoleFree(ps[i])
    decreases |ps|
  {
    PiecesJoin(s);
    if Join(ps) == s && forall i :: 0 <= i < |ps| ==> HoleFree(ps[i]) {
      if |ps| == 1 {
        FirstHoleUnique(s, |s|);
        assert ps == [s];
      } else {
        var rest := Join(ps[1..]);
        HoleAfterPiece(ps[0], rest);
        assert s[..|ps[0]|] == ps[0] && s[|ps[0]| + 2..] == rest;
        SplitUnique(rest, ps[1..]);
        assert ps == [ps[0]] + ps[1..];
      }
    }
  }

  // ---- What the substitution is ------------------------------------------------------

  /** Each piece followed by its argument. */
  function Filled(ps: seq<string>, args: seq<string>): string
    requires |ps| == |args|
  {
    if ps == [] then "" else ps[0] + args[0] + Filled(ps[1..], args[1..])
  }

  lemma {:induction false} InterleaveShape(ps: seq<string>, args: seq<string>)
    requires ps != []
    ensures var n := if |args| < |ps| then |args| else |ps| - 1;
      Interleave(ps, args) == Filled(ps[..n], args[..n]) + Join(ps[n..])
    decreases |ps|
  {
    var n := if |args| < |ps| then |args| else |ps| - 1;
    if |ps| > 1 && args == [] {
      InterleaveShape(ps[1..], []);
      assert ps[n..] == ps && ps[1..][0..] == ps[1..];
    } else if |ps| > 1 {
      InterleaveShape(ps[1..], args[1..]);
      assert ps[..n][1..] == ps[1..][..n - 1] && args[..n][1..] == args[1..][..n - 1] && ps[1..][n - 1..] == ps[n..];
    } else {
      assert ps[n..] == ps;
    }
  }

  /** Surplus arguments are ignored, and a surplus hole stays as the text it was: after
      the arguments comes the rest of the format string, untouched. */
  lemma SubstitutesInOrder(fmt: string, args: seq<string>)
    ensures var ps := Pieces(fmt); var n := if |args| < |ps| then |args| else |ps| - 1;
      && Text(fmt, args) == Filled(ps[..n], args[..n]) + Join(ps[n..])
      && Text(fmt, args) == Text(fmt, args[..n])
  {
    var ps := Pieces(fmt);
    var n := if |args| < |ps| then |args| else |ps| - 1;
    InterleaveShape(ps, args);
    InterleaveShape(ps, args[..n]);
    assert args[..n][..n] == args[..n];
  }

  /** Without arguments a message is its format string. */
  lemma NoArguments(fmt: string)
    ensures Text(fmt, []) == fmt
  {
    InterleaveShape(Pieces(fmt), []);
    PiecesJoin(fmt);
    assert Pieces(fmt)[0..] == Pieces(fmt);
  }

  /** A hole is an opening and a closing brace. */
  lemma OneHole(arg: string)
    ensures Text("{}", [arg]) == arg && Text("}{", [arg]) == "}{"
  {
    TextAtHole("{}", [arg]);
    assert "{}"[2..] == "" && [arg][1..] == [] && Text("", []) == "" && arg + "" == arg;
    FirstHoleUnique("}{", 2);
  }

  // ---- The scan ----------------------------------------------------------------------

  lemma TextAtHole(s: string, args: seq<string>)
    requires HoleAt(s, 0)
    ensures Text(s, args) == (if args == [] then HOLE else args[0]) + Text(s[2..], if args == [] then [] else args[1..])
  {
    FirstHoleUnique(s, 0);
    assert Pieces(s)[1..] == Pieces(s[2..]);
    assert "" + HOLE == HOLE && (args != [] ==> "" + args[0] == args[0]);
  }

  lemma CutAfterChar(s: string, j: nat)
    requires s != "" && j + 2 < |s|
    ensures s[..j + 1] == [s[0]] + s[1..][..j] && s[j + 3..] == s[1..][j + 2..]
  {
  }

  lemma PiecesAtChar(s: string)
    requires s != "" && !HoleAt(s, 0)
    ensures Pieces(s) == [[s[0]] + Pieces(s[1..])[0]] + Pieces(s[1..])[1..]
  {
    var t := s[1..];
    var j := FirstHole(t);
    assert FirstHole(s) == j + 1;
    if j < |t| {
      CutAfterChar(s, j);
    } else {
      assert s == [s[0]] + t;
    }
  }

  lemma InterleaveFront(c: char, ps: seq<string>, args: seq<string>)
    requires ps != []
    ensures Interleave([[c] + ps[0]] + ps[1..], args) == [c] + Interleave(ps, args)
  {
    var qs := [[c] + ps[0]] + ps[1..];
    assert qs[1..] == ps[1..];
  }

  lemma TextAtChar(s: string, args: seq<string>)
    requires s != "" && !HoleAt(s, 0)
    ensures Text(s, args) == [s[0]] + Text(s[1..], args)
  {
    PiecesAtChar(s);
    InterleaveFront(s[0], Pieces(s[1..]), args);
  }

  /** What the scan keeps: the output so far, then the text of what is left. */
  ghost predicate Scanned(all: string, out: string, fmt: string, i: nat, args: seq<string>, used: nat) {
    i <= |fmt| && used <= |args| && all == out + Text(fmt[i..], args[used..])
  }

  lemma ScanHole(all: string, out: string, fmt: string, i: nat, args: seq<string>, used: nat)
    requires Scanned(all, out, fmt, i, args, used) && HoleAt(fmt, i)
    ensures if used < |args| then Scanned(all, out + args[used], fmt, i + 2, args, used + 1)
            else Scanned(all, out + HOLE, fmt, i + 2, args, used)
  {
    var s, left := fmt[i..], args[used..];
    TextAtHole(s, left);
    assert s[2..] == fmt[i + 2..];
    if used < |args| {
      assert left[1..] == args[used + 1..];
    }
  }

  lemma ScanChar(all: string, out: string, fmt: string, i: nat, args: seq<string>, used: nat)
    requires Scanned(all, out, fmt, i, args, used) && i < |fmt| && !HoleAt(fmt, i)
    ensures Scanned(all, out + [fmt[i]], fmt, i + 1, args, used)
  {
    var s := fmt[i..];
    TextAtChar(s, args[used..]);
    assert s[1..] == fmt[i + 1..];
  }

  /** The scan with one character of look-ahead, as `format_message` runs. */
  method FormatMessage(buf: string, fmt: string, args: seq<string>) returns (out: string)
    ensures out == buf + Text(fmt, args)
  {
    out := buf;
    var i, used := 0, 0;
    ghost var all := buf + Text(fmt, args);
    assert fmt[0..] == fmt && args[0..] == args;
    while i < |fmt|
      invariant 0 <= i <= |fmt| && 0 <= used <= |args|
      invariant Scanned(all, out, fmt, i, args, used)
    {
      if fmt[i] == '{' && i + 1 < |fmt| && fmt[i + 1] == '}' {
        ScanHole(all, out, fmt, i, args, used);
        if used < |args| {
          out, used := out + args[used], used + 1;
        } else {
          out := out + HOLE;
        }
        i := i + 2;
      } else {
        ScanChar(all, out, fmt, i, args, used);
        out, i := out + [fmt[i]], i + 1;
      }
    }
    assert fmt[i..] == "" && Text("", args[used..]) == "";
  }
}
