/** Breaking a migration into the statements a driver runs one at a time. */
module SqlSplit {

  /** What the lexer is inside of: plain text, a line comment, or a quoted literal. */
  datatype State = Normal | Comment | Literal

  const QUOTE := '\''
  const SEMICOLON := ';'
  const NEWLINE := '\n'

  /** A line comment opens here. */
  predicate Opens(s: string) {
    |s| >= 2 && s[0] == '-' && s[1] == '-'
  }

  /** The state past the first character. A quote simply toggles: a doubled quote leaves a literal and enters it
      again. */
  function Step(st: State, s: string): State
    requires s != ""
  {
    match st
    case Normal => if Opens(s) then Comment else if s[0] == QUOTE then Literal else Normal
    case Comment => if s[0] == NEWLINE then Normal else Comment
    case Literal => if s[0] == QUOTE then Normal else Literal
  }

  /** A comment opens here that nothing ends. */
  predicate Dangling(st: State, s: string) {
    st == Normal && Opens(s) && NEWLINE !in s
  }

  predicate Bare(st: State, s: string) {
    st == Normal && s != "" && s[0] == SEMICOLON
  }

  function Prefixed(head: string, ps: seq<string>): (r: seq<string>)
    requires |ps| > 0
    ensures |r| == |ps|
  {
    [head + ps[0]] + ps[1..]
  }

  /** The text cut at its bare semicolons, up to a comment that nothing ends. */
  function Pieces(st: State, s: string): (ps: seq<string>)
    ensures |ps| > 0
    decreases |s|
  {
    if s == "" || Dangling(st, s) then [""]
    else if Bare(st, s) then [""] + Pieces(Normal, s[1..])
    else Prefixed(s[..1], Pieces(Step(st, s), s[1..]))
  }

  predicate IsSpace(c: char) {
    || '\t' <= c <= '\r' || c == ' ' || c == '\U{0085}' || c == '\U{00A0}' || c == '\U{1680}'
        || '\U{2000}' <= c <= '\U{200a}'
    || c == '\U{2028}' || c == '\U{2029}' || c == '\U{202f}' || c == '\U{205f}' || c == '\U{3000}'
  }

  function TrimLeft(s: string): string {
    if s != "" && IsSpace(s[0]) then TrimLeft(s[1..]) else s
  }

  function TrimRight(s: string): string {
    if s != "" && IsSpace(s[|s| - 1]) then TrimRight(s[..|s| - 1]) else s
  }

  function Trim(s: string): string {
    TrimRight(TrimLeft(s))
  }

  /** What is left of the pieces once each is trimmed and the empty ones are dropped. */
  function Statements(ps: seq<string>): seq<string> {
    if ps == [] then []
    else (if Trim(ps[0]) == "" then [] else [Trim(ps[0])]) + Statements(ps[1..])
  }

  function Join(ps: seq<string>): string
    requires |ps| > 0
  {
    if |ps| == 1 then ps[0] else ps[0] + [SEMICOLON] + Join(ps[1..])
  }

  /** Where a given character comes first, or the length when it does not come. */
  function IndexOf(s: string, c: char): (k: nat)
    ensures k <= |s| && c !in s[..k] && (k < |s| ==> s[k] == c)
  {
    if s == "" || s[0] == c then 0 else 1 + IndexOf(s[1..], c)
  }

  function Flushed(out: seq<string>, cur: string): seq<string> {
    if Trim(cur) == "" then out else out + [Trim(cur)]
  }

  /** Where a scan ends that has `out` behind it, `cur` gathered of the statement at hand, and `s` to come. */
  function Scanned(out: seq<string>, cur: string, st: State, s: string): seq<string>
    decreases |s|
  {
    if s == "" || Dangling(st, s) then Flushed(out, cur)
    else if Bare(st, s) then Scanned(Flushed(out, cur), "", Normal, s[1..])
    else Scanned(out, cur + s[..1], Step(st, s), s[1..])
  }

  lemma PrefixedTwice(a: string, b: string, ps: seq<string>)
    requires |ps| > 0
    ensures Prefixed(a, Prefixed(b, ps)) == Prefixed(a + b, ps)
  {
    assert a + (b + ps[0]) == (a + b) + ps[0];
  }

  lemma PrefixedNothing(ps: seq<string>)
    requires |ps| > 0
    ensures Prefixed("", ps) == ps
  {
    assert "" + ps[0] == ps[0];
  }

  lemma PrefixedEmpty(cur: string, ps: seq<string>)
    ensures Prefixed(cur, [""] + ps) == [cur] + ps
  {
    assert cur + "" == cur;
    assert ([""] + ps)[1..] == ps;
  }

  lemma StatementsOfMore(out: seq<string>, cur: string, ps: seq<string>)
    ensures out + Statements([cur] + ps) == Flushed(out, cur) + Statements(ps)
  {
    assert ([cur] + ps)[1..] == ps;
  }

  /** A scan gathers the statements of the pieces. */
  lemma {:induction false} ScannedIsPieces(out: seq<string>, cur: string, st: State, s: string)
    ensures Scanned(out, cur, st, s) == out + Statements(Prefixed(cur, Pieces(st, s)))
    decreases |s|
  {
    if s == "" || Dangling(st, s) {
      PrefixedEmpty(cur, []);
      StatementsOfMore(out, cur, []);
      assert [""] + [] == [""];
      assert [cur] + [] == [cur];
    } else if Bare(st, s) {
      var ps := Pieces(Normal, s[1..]);
      ScannedIsPieces(Flushed(out, cur), "", Normal, s[1..]);
      PrefixedNothing(ps);
      PrefixedEmpty(cur, ps);
      StatementsOfMore(out, cur, ps);
    } else {
      ScannedIsPieces(out, cur + s[..1], Step(st, s), s[1..]);
      PrefixedTwice(cur, s[..1], Pieces(Step(st, s), s[1..]));
    }
  }

  /** A comment is carried over whole, with the newline that ends it and whatever semicolons it has. */
  lemma {:induction false} PastComment(out: seq<string>, cur: string, s: string, k: nat)
    requires k < |s| && s[k] == NEWLINE && NEWLINE !in s[..k]
    ensures Scanned(out, cur, Comment, s) == Scanned(out, cur + s[..k + 1], Normal, s[k + 1..])
    decreases k
  {
    if k > 0 {
      assert s[0] == s[..k][0];
      assert s[1..][..k - 1] == s[..k][1..];
      PastComment(out, cur + s[..1], s[1..], k - 1);
      assert s[1..][k..] == s[k + 1..];
      assert (cur + s[..1]) + s[1..][..k] == cur + s[..k + 1];
    }
  }

  lemma PastOpening(out: seq<string>, cur: string, s: string, k: nat)
    requires Opens(s) && k < |s| && s[k] == NEWLINE && NEWLINE !in s[..k]
    ensures Scanned(out, cur, Normal, s) == Scanned(out, cur + s[..k + 1], Normal, s[k + 1..])
  {
    assert s[1..][..k - 1] == s[..k][1..];
    PastComment(out, cur + s[..1], s[1..], k - 1);
    assert s[1..][k..] == s[k + 1..];
    assert (cur + s[..1]) + s[1..][..k] == cur + s[..k + 1];
  }

  function At(s: string, k: nat): string {
    if k >= |s| then "" else [s[k]]
  }

  /** One character on. */
  lemma ScanOne(out: seq<string>, cur: string, st: State, s: string, i: nat)
    requires i < |s|
    ensures Bare(st, s[i..]) <==> st == Normal && At(s, i) == [SEMICOLON]
    ensures !Dangling(st, s[i..]) && !Bare(st, s[i..]) ==>
              Scanned(out, cur, st, s[i..]) == Scanned(out, cur + At(s, i), Step(st, s[i..]), s[i + 1..])
    ensures Bare(st, s[i..]) ==> Scanned(out, cur, st, s[i..]) == Scanned(Flushed(out, cur), "", Normal, s[i + 1..])
  {
    assert s[i..][..1] == At(s, i);
    assert s[i..][1..] == s[i + 1..];
  }

  /** A comment over, its newline and all. */
  lemma ScanComment(out: seq<string>, cur: string, s: string, i: nat, end: nat)
    requires i < |s| && Opens(s[i..]) && end < |s[i..]| && s[i..][end] == NEWLINE && NEWLINE !in s[i..][..end]
    ensures Scanned(out, cur, Normal, s[i..]) == Scanned(out, cur + s[i..i + end + 1], Normal, s[i + end + 1..])
  {
    PastOpening(out, cur, s[i..], end);
    assert s[i..][..end + 1] == s[i..i + end + 1];
    assert s[i..][end + 1..] == s[i + end + 1..];
  }

  /** A comment that nothing ends is where the scan ends. */
  lemma ScanDangling(out: seq<string>, cur: string, s: string)
    requires Opens(s) && NEWLINE !in s
    ensures Scanned(out, cur, Normal, s) == Flushed(out, cur)
  {
  }

  /** The scanner: looks ahead for a second dash and, at a closing quote, for a second quote. */
  method SplitStatements(script: string) returns (out: seq<string>)
    ensures out == Statements(Pieces(Normal, script))
  {
    ScannedIsPieces([], "", Normal, script);
    PrefixedNothing(Pieces(Normal, script));
    out := Scan(script);
  }

  method Scan(script: string) returns (out: seq<string>)
    ensures out == Scanned([], "", Normal, script)
  {
    var n, i, cur := |script|, 0, "";
    out := [];
    assert script[0..] == script;
    while i < n
      invariant i <= n && Scanned(out, cur, Normal, script[i..]) == Scanned([], "", Normal, script)
    {
      if Opens(script[i..]) {
        var end := IndexOf(script[i..], NEWLINE);
        if end == |script[i..]| {
          assert script[i..][..end] == script[i..];
          ScanDangling(out, cur, script[i..]);
          return Flushed(out, cur);
        }
        ScanComment(out, cur, script, i, end);
        i, cur := i + end + 1, cur + script[i..i + end + 1];
      } else {
        i, cur, out := ScanPlain(script, i, cur, out);
      }
    }
    out := Flushed(out, cur);
  }

  /** Anything but a comment: a whole literal, a semicolon that ends the statement at hand, or one more character. */
  method ScanPlain(script: string, from: nat, gathered: string, found: seq<string>)
    returns (i: nat, cur: string, out: seq<string>)
    requires from < |script| && !Opens(script[from..])
    ensures from < i <= |script|
    ensures Scanned(out, cur, Normal, script[i..]) == Scanned(found, gathered, Normal, script[from..])
  {
    i, cur, out := from + 1, gathered, found;
    ScanOne(found, gathered, Normal, script, from);
    if At(script, from) == [QUOTE] {
      i, cur := ScanLiteral(script, from, gathered, found);
    } else if At(script, from) == [SEMICOLON] {
      out, cur := Flushed(found, gathered), "";
    } else {
      cur := gathered + At(script, from);
    }
  }

  /** A quote opens a literal, and inside one a quote closes it and any other character is kept. */
  lemma ScanQuoted(out: seq<string>, cur: string, s: string, i: nat)
    requires i < |s|
    ensures s[i] == QUOTE ==> Scanned(out, cur, Normal, s[i..]) == Scanned(out, cur + [s[i]], Literal, s[i + 1..])
    ensures Scanned(out, cur, Literal, s[i..]) ==
            Scanned(out, cur + [s[i]], if s[i] == QUOTE then Normal else Literal, s[i + 1..])
  {
    ScanOne(out, cur, Normal, s, i);
    ScanOne(out, cur, Literal, s, i);
  }

  lemma ScanDoubled(out: seq<string>, cur: string, s: string, i: nat)
    requires i + 1 < |s| && s[i] == QUOTE && s[i + 1] == QUOTE
    ensures Scanned(out, cur, Literal, s[i..]) == Scanned(out, cur + [s[i], s[i + 1]], Literal, s[i + 2..])
  {
    ScanQuoted(out, cur, s, i);
    ScanQuoted(out, cur + [s[i]], s, i + 1);
    assert cur + [s[i]] + [s[i + 1]] == cur + [s[i], s[i + 1]];
  }

  /** A literal that nothing closes. */
  lemma ScanUnclosed(out: seq<string>, cur: string, s: string)
    ensures Scanned(out, cur, Literal, s[|s|..]) == Scanned(out, cur, Normal, s[|s|..])
  {
    assert s[|s|..] == "";
  }

  /** A single-quoted literal, in which a doubled quote is an escaped one. */
  method ScanLiteral(script: string, from: nat, gathered: string, ghost out: seq<string>) returns (i: nat, cur: string)
    requires from < |script| && script[from] == QUOTE
    ensures from < i <= |script|
    ensures Scanned(out, cur, Normal, script[i..]) == Scanned(out, gathered, Normal, script[from..])
  {
    ghost var goal := Scanned(out, gathered, Normal, script[from..]);
    ScanQuoted(out, gathered, script, from);
    cur := gathered + [QUOTE];
    i := from + 1;
    while i < |script|
      invariant from < i <= |script|
      invariant Scanned(out, cur, Literal, script[i..]) == goal
    {
      if script[i] == QUOTE && i + 1 < |script| && script[i + 1] == QUOTE {
        ScanDoubled(out, cur, script, i);
        i, cur := i + 2, cur + [QUOTE, QUOTE];
        continue;
      }
      ScanQuoted(out, cur, script, i);
      i, cur := i + 1, cur + [script[i]];
      if script[i - 1] == QUOTE {
        return;
      }
    }
    ScanUnclosed(out, cur, script);
  }

  /** The script up to a comment that nothing ends. */
  function Body(st: State, s: string): string
    decreases |s|
  {
    if s == "" || Dangling(st, s) then "" else s[..1] + Body(Step(st, s), s[1..])
  }

  lemma Regroup(a: string, b: string, c: string, d: string)
    ensures (a + b) + c + d == a + (b + c + d)
  {
  }

  lemma JoinPrefixed(head: string, ps: seq<string>)
    requires |ps| > 0
    ensures Join(Prefixed(head, ps)) == head + Join(ps)
  {
    if |ps| > 1 {
      assert Prefixed(head, ps)[1..] == ps[1..];
      Regroup(head, ps[0], [SEMICOLON], Join(ps[1..]));
    }
  }

  /** Nothing is lost: put back together at semicolons, the pieces are the script, up to a last unended comment. */
  lemma {:induction false} RejoinedIsTheScript(st: State, s: string)
    ensures Join(Pieces(st, s)) == Body(st, s)
    decreases |s|
  {
    if s != "" && !Dangling(st, s) {
      if Bare(st, s) {
        RejoinedIsTheScript(Normal, s[1..]);
        var ps := Pieces(Normal, s[1..]);
        assert ([""] + ps)[1..] == ps;
        assert s[..1] == [SEMICOLON];
        assert Step(st, s) == Normal;
      } else {
        RejoinedIsTheScript(Step(st, s), s[1..]);
        JoinPrefixed(s[..1], Pieces(Step(st, s), s[1..]));
      }
    }
  }

  /** What the body leaves out is nothing, or one comment with no end. */
  lemma {:induction false} BodyIsAllButAComment(st: State, s: string) returns (left: string)
    ensures s == Body(st, s) + left && (left == "" || (Opens(left) && NEWLINE !in left))
    decreases |s|
  {
    if s == "" || Dangling(st, s) {
      left := s;
    } else {
      left := BodyIsAllButAComment(Step(st, s), s[1..]);
      assert s == s[..1] + s[1..];
    }
  }

  /** No semicolon stands bare in the text, entered in the given state. */
  predicate NoneBare(st: State, s: string)
    decreases |s|
  {
    s == "" || (!Bare(st, s) && NoneBare(Step(st, s), s[1..]))
  }

  /** The text ends in plain text: every literal closed and every comment ended. */
  predicate Ends(st: State, s: string)
    decreases |s|
  {
    if s == "" then st == Normal else Ends(Step(st, s), s[1..])
  }

  /** A statement complete in itself. */
  predicate Whole(st: State, s: string) {
    NoneBare(st, s) && Ends(st, s)
  }

  /** Every piece but the last is a whole statement, and no piece has a bare semicolon left in it: only semicolons of
      plain text cut, and every one of them does. */
  lemma {:induction false} PiecesAreWhole(st: State, s: string, i: nat)
    requires i < |Pieces(st, s)|
    ensures NoneBare(if i == 0 then st else Normal, Pieces(st, s)[i])
    ensures i + 1 < |Pieces(st, s)| ==> Ends(if i == 0 then st else Normal, Pieces(st, s)[i])
    decreases |s|
  {
    var ps := Pieces(st, s);
    if s == "" || Dangling(st, s) {
    } else if Bare(st, s) {
      if i > 0 { PiecesAreWhole(Normal, s[1..], i - 1); }
    } else {
      var next, rest := Step(st, s), s[1..];
      PiecesAreWhole(next, rest, i);
      if i == 0 {
        HeadOfPiece(next, rest);
        assert ps[0][1..] == Pieces(next, rest)[0];
        assert Step(st, ps[0]) == Step(st, s);
      }
    }
  }

  lemma HeadOfPiece(st: State, s: string)
    ensures var p := Pieces(st, s)[0];
            p == "" || (s != "" && p[0] == s[0])
    ensures Pieces(st, s)[0] == "" ==> s == "" || Dangling(st, s) || Bare(st, s)
  {
  }

  lemma {:induction false} EndingNeedsNewline(s: string)
    requires Ends(Comment, s)
    ensures NEWLINE in s
  {
    if s != "" && s[0] != NEWLINE {
      EndingNeedsNewline(s[1..]);
    }
  }

  /** A whole statement before a semicolon is cut off there, whatever follows. */
  lemma {:induction false} WholeIsCutOff(st: State, p: string, rest: string)
    requires Whole(st, p)
    ensures Pieces(st, p + [SEMICOLON] + rest) == [p] + Pieces(Normal, rest)
    decreases |p|
  {
    var s := p + [SEMICOLON] + rest;
    if p == "" {
      assert s[1..] == rest;
    } else {
      assert s[1..] == p[1..] + [SEMICOLON] + rest;
      assert Opens(s) <==> Opens(p);
      assert Step(st, s) == Step(st, p);
      if st == Normal && Opens(p) {
        EndingNeedsNewline(p[1..]);
        assert NEWLINE in p;
      }
      WholeIsCutOff(Step(st, p), p[1..], rest);
      assert s[..1] + p[1..] == p;
      assert Pieces(st, s) == Prefixed(s[..1], [p[1..]] + Pieces(Normal, rest));
    }
  }

  lemma {:induction false} WholeIsOnePiece(st: State, p: string)
    requires Whole(st, p)
    ensures Pieces(st, p) == [p]
    decreases |p|
  {
    if p != "" {
      if st == Normal && Opens(p) {
        EndingNeedsNewline(p[1..]);
      }
      WholeIsOnePiece(Step(st, p), p[1..]);
      assert p[..1] + p[1..] == p;
    }
  }

  lemma {:induction false} JoinedThenCut(ps: seq<string>)
    requires |ps| > 0 && forall p :: p in ps ==> Whole(Normal, p)
    ensures Pieces(Normal, Join(ps)) == ps
  {
    if |ps| == 1 {
      WholeIsOnePiece(Normal, ps[0]);
    } else {
      JoinedThenCut(ps[1..]);
      WholeIsCutOff(Normal, ps[0], Join(ps[1..]));
    }
  }

  /** What a statement is written with: a character that means nothing by itself, a quoted literal, a line comment. */
  datatype Token = Plain(c: char) | Quoted(body: string) | Remark(body: string)

  /** A literal's text with its quotes doubled. */
  function Doubled(body: string): string {
    if body == "" then ""
    else (if body[0] == QUOTE then [QUOTE, QUOTE] else body[..1]) + Doubled(body[1..])
  }

  function Render(t: Token): string {
    match t
    case Plain(c) => [c]
    case Quoted(body) => [QUOTE] + Doubled(body) + [QUOTE]
    case Remark(body) => "--" + body + [NEWLINE]
  }

  function Written(ts: seq<Token>): string {
    if ts == [] then "" else Render(ts[0]) + Written(ts[1..])
  }

  /** Semicolons and newlines are free in a literal, quotes and semicolons in a comment; elsewhere a quote or a
      semicolon has to be one of these, and two dashes a comment. */
  predicate Grammatical(ts: seq<Token>) {
    ts == [] ||
    (&& Grammatical(ts[1..])
     && match ts[0]
        case Plain(c) => c != QUOTE && c != SEMICOLON
            && (c == '-' ==> Written(ts[1..]) == "" || Written(ts[1..])[0] != '-')
        case Quoted(_) => true
        case Remark(body) => NEWLINE !in body)
  }

  lemma {:induction false} LiteralIsWhole(body: string, rest: string)
    requires Whole(Normal, rest)
    ensures Whole(Literal, Doubled(body) + [QUOTE] + rest)
    decreases |body|
  {
    var s := Doubled(body) + [QUOTE] + rest;
    if body == "" {
      assert s[1..] == rest;
    } else {
      LiteralIsWhole(body[1..], rest);
      var after := Doubled(body[1..]) + [QUOTE] + rest;
      if body[0] == QUOTE {
        assert s[1..] == [QUOTE] + after && s[1..][1..] == after;
      } else {
        assert s[1..] == after;
      }
    }
  }

  lemma {:induction false} RemarkIsWhole(body: string, rest: string)
    requires Whole(Normal, rest) && NEWLINE !in body
    ensures Whole(Comment, body + [NEWLINE] + rest)
  {
    var s := body + [NEWLINE] + rest;
    if body == "" {
      assert s[1..] == rest;
    } else {
      RemarkIsWhole(body[1..], rest);
      assert s[1..] == body[1..] + [NEWLINE] + rest;
    }
  }

  /** One character of plain text. */
  lemma PlainIsWhole(c: char, rest: string)
    requires c != QUOTE && c != SEMICOLON && (c == '-' ==> rest == "" || rest[0] != '-') && Whole(Normal, rest)
    ensures Whole(Normal, [c] + rest)
  {
    var s := [c] + rest;
    assert s[1..] == rest && !Opens(s);
  }

  lemma QuotedIsWhole(body: string, rest: string)
    requires Whole(Normal, rest)
    ensures Whole(Normal, [QUOTE] + Doubled(body) + [QUOTE] + rest)
  {
    var s := [QUOTE] + Doubled(body) + [QUOTE] + rest;
    LiteralIsWhole(body, rest);
    assert s[1..] == Doubled(body) + [QUOTE] + rest;
  }

  lemma DashedIsWhole(body: string, rest: string)
    requires Whole(Normal, rest) && NEWLINE !in body
    ensures Whole(Normal, "--" + body + [NEWLINE] + rest)
  {
    var s := "--" + body + [NEWLINE] + rest;
    RemarkIsWhole("-" + body, rest);
    assert s[1..] == "-" + body + [NEWLINE] + rest;
  }

  lemma {:induction false} WrittenIsWhole(ts: seq<Token>)
    requires Grammatical(ts)
    ensures Whole(Normal, Written(ts))
  {
    if ts != [] {
      WrittenIsWhole(ts[1..]);
      match ts[0] {
        case Plain(c) => PlainIsWhole(c, Written(ts[1..]));
        case Quoted(body) => QuotedIsWhole(body, Written(ts[1..]));
        case Remark(body) => DashedIsWhole(body, Written(ts[1..]));
      }
    }
  }

  lemma {:induction false} ReadLiteral(s: string) returns (body: string, rest: string)
    requires Whole(Literal, s)
    ensures s == body + [QUOTE] + rest && Doubled(body) == body && Whole(Normal, rest)
  {
    if s[0] == QUOTE {
      body, rest := "", s[1..];
    } else {
      body, rest := ReadLiteral(s[1..]);
      body := s[..1] + body;
      assert body[1..] + [QUOTE] + rest == s[1..];
    }
  }

  lemma {:induction false} ReadRemark(s: string) returns (body: string, rest: string)
    requires Whole(Comment, s)
    ensures s == body + [NEWLINE] + rest && NEWLINE !in body && Whole(Normal, rest)
  {
    if s[0] == NEWLINE {
      body, rest := "", s[1..];
    } else {
      body, rest := ReadRemark(s[1..]);
      body := s[..1] + body;
    }
  }

  lemma OneMoreToken(t: Token, ts: seq<Token>)
    requires Grammatical(ts)
    requires t.Plain? ==> t.c != QUOTE && t.c != SEMICOLON && !Opens([t.c] + Written(ts))
    requires t.Remark? ==> NEWLINE !in t.body
    ensures Grammatical([t] + ts) && Written([t] + ts) == Render(t) + Written(ts)
  {
    assert ([t] + ts)[1..] == ts;
  }

  lemma {:induction false} WholeIsWritten(s: string) returns (ts: seq<Token>)
    requires Whole(Normal, s)
    ensures Grammatical(ts) && Written(ts) == s
    decreases |s|
  {
    if s == "" {
      return [];
    }
    var t, rest := NextToken(s);
    ts := WholeIsWritten(rest);
    OneMoreToken(t, ts);
    ts := [t] + ts;
  }

  /** A complete statement begins with a token, and goes on with a complete one. */
  lemma NextToken(s: string) returns (t: Token, rest: string)
    requires Whole(Normal, s) && s != ""
    ensures s == Render(t) + rest && Whole(Normal, rest) && |rest| < |s|
    ensures (t.Plain? ==> t.c != QUOTE && t.c != SEMICOLON && !Opens(s)) && (t.Remark? ==> NEWLINE !in t.body)
  {
    if Opens(s) {
      var body;
      body, rest := ReadRemark(s[1..]);
      assert body[0] == s[1];
      t := Remark(body[1..]);
      assert s == "--" + body[1..] + [NEWLINE] + rest;
    } else if s[0] == QUOTE {
      var body;
      body, rest := ReadLiteral(s[1..]);
      t := Quoted(body);
    } else {
      t, rest := Plain(s[0]), s[1..];
    }
  }

  /** Complete statements are exactly what can be written with characters, literals and comments: no automaton needed to
      say what the splitter keeps together. */
  lemma WholeExactly(s: string)
    ensures Whole(Normal, s) <==> exists ts :: Grammatical(ts) && Written(ts) == s
  {
    if Whole(Normal, s) {
      var ts := WholeIsWritten(s);
      assert Grammatical(ts) && Written(ts) == s;
    }
    forall ts | Grammatical(ts) && Written(ts) == s ensures Whole(Normal, s) {
      WrittenIsWhole(ts);
    }
  }

  predicate Tidy(p: string) {
    p != "" && Trim(p) == p
  }

  lemma {:induction false} TidyStatements(ps: seq<string>)
    requires forall p :: p in ps ==> Tidy(p)
    ensures Statements(ps) == ps
  {
    if ps != [] {
      assert forall p :: p in ps[1..] ==> p in ps;
      assert Tidy(ps[0]);
      TidyStatements(ps[1..]);
      assert [ps[0]] + ps[1..] == ps;
    }
  }

  /** Statements complete in themselves, joined by semicolons and split again, come back as they were. */
  lemma SplitUndoesJoin(ps: seq<string>)
    requires |ps| > 0 && forall p :: p in ps ==> Whole(Normal, p) && Tidy(p)
    ensures Statements(Pieces(Normal, Join(ps))) == ps
  {
    JoinedThenCut(ps);
    TidyStatements(ps);
  }

  lemma {:induction false} TrimRightEnds(s: string)
    ensures var t := TrimRight(s); |t| <= |s| && t == s[..|t|] && (t == "" || !IsSpace(t[|t| - 1]))
  {
    if s != "" && IsSpace(s[|s| - 1]) {
      TrimRightEnds(s[..|s| - 1]);
    }
  }

  lemma {:induction false} TrimLeftEnds(s: string)
    ensures var t := TrimLeft(s); |t| <= |s| && t == s[|s| - |t|..] && (t == "" || !IsSpace(t[0]))
  {
    if s != "" && IsSpace(s[0]) {
      TrimLeftEnds(s[1..]);
    }
  }

  lemma TrimTwice(s: string)
    ensures Trim(Trim(s)) == Trim(s)
  {
    TrimLeftEnds(s);
    TrimRightEnds(TrimLeft(s));
  }

  /** What is run is never empty, and has no blank at either end. */
  lemma {:induction false} StatementsAreTrimmed(ps: seq<string>, i: nat)
    requires i < |Statements(ps)|
    ensures Tidy(Statements(ps)[i])
  {
    TrimTwice(ps[0]);
    var here := if Trim(ps[0]) == "" then 0 else 1;
    if i >= here {
      StatementsAreTrimmed(ps[1..], i - here);
    }
  }
}
