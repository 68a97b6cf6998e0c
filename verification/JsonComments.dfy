/**
 What cJSON_Minify, packages/cJSON-latest/cJSON.c:741-756, takes out of a text and what it keeps: white space
 and comments go, strings and everything else stay as they are.
 */
module JsonComments {
  import opened Json
  import opened JsonRoundTrip
  import opened JsonMinify

  /** A piece of a text: a character outside strings, a string, white space, a comment to the end of the line, or one between marks. */
  datatype Piece = Plain(c: char) | Quote(s: string) | Space(s: string) | Remark(s: string) | Block(s: string)

  /** What may stand between the quotes of a string: a quote or a backslash only behind a backslash. */
  ghost predicate Inside(s: string) {
    s == [] || (if s[0] == '\\' then |s| > 1 && s[1] != NUL && Inside(s[2..]) else s[0] != '\"' && s[0] != NUL && Inside(s[1..]))
  }

  /** No end mark inside. */
  ghost predicate NoEnd(s: string) {
    forall i {:trigger s[i]} :: 0 <= i < |s| ==> s[i] != NUL && (s[i] == '*' && i + 1 < |s| ==> s[i+1] != '/')
  }

  ghost predicate PieceOk(p: Piece) {
    match p
    case Plain(c) => c != NUL && !IsBlank(c) && c != '\"' && c != '/'
    case Quote(s) => Inside(s)
    case Space(s) => forall i {:trigger s[i]} :: 0 <= i < |s| ==> IsBlank(s[i])
    case Remark(s) => forall i {:trigger s[i]} :: 0 <= i < |s| ==> s[i] != NUL && s[i] != '\n'
    case Block(s) => NoEnd(s) && Ch(s) != '/'
  }

  function Written(p: Piece): string {
    match p
    case Plain(c) => [c]
    case Quote(s) => ['\"'] + (s + ['\"'])
    case Space(s) => s
    case Remark(s) => ['/', '/'] + (s + ['\n'])
    case Block(s) => ['/', '*'] + (s + ['*', '/'])
  }

  /** What is left of a piece. */
  function Kept(p: Piece): string {
    if p.Plain? || p.Quote? then Written(p) else []
  }

  function AllWritten(ps: seq<Piece>): string {
    if ps == [] then [] else Written(ps[0]) + AllWritten(ps[1..])
  }

  function AllKept(ps: seq<Piece>): string {
    if ps == [] then [] else Kept(ps[0]) + AllKept(ps[1..])
  }

  lemma {:induction false} CopiedInside(s: string, t: string)
    requires Inside(s)
    ensures Copied(s + (['\"'] + t)) == (s, ['\"'] + t)
    decreases |s|
  {
    var u := s + (['\"'] + t);
    if s == [] {
      assert u == ['\"'] + t;
    } else {
      var n := if s[0] == '\\' then 2 else 1;
      assert u[n..] == s[n..] + (['\"'] + t) && u[..n] == s[..n];
      CopiedInside(s[n..], t);
      assert s[..n] + s[n..] == s;
    }
  }

  lemma {:induction false} LineBehind(s: string, t: string)
    requires forall i {:trigger s[i]} :: 0 <= i < |s| ==> s[i] != NUL && s[i] != '\n'
    ensures Line(s + (['\n'] + t)) == ['\n'] + t
  {
    var u := s + (['\n'] + t);
    if s == [] {
      assert u == ['\n'] + t;
    } else {
      assert u[1..] == s[1..] + (['\n'] + t);
      LineBehind(s[1..], t);
    }
  }

  lemma {:induction false} CommentBehind(s: string, t: string)
    requires NoEnd(s)
    ensures Comment(s + (['*', '/'] + t)) == ['*', '/'] + t
  {
    var u := s + (['*', '/'] + t);
    if s == [] {
      assert u == ['*', '/'] + t;
      assert u[1..] == ['/'] + t;
    } else {
      assert u[1..] == s[1..] + (['*', '/'] + t);
      assert s[0] != NUL && Ch(u[1..]) == if |s| > 1 then s[1] else '*';
      forall i | 0 <= i < |s| - 1 ensures s[1..][i] != NUL && (s[1..][i] == '*' && i + 1 < |s| - 1 ==> s[1..][i+1] != '/') {
        assert s[1..][i] == s[i+1];
      }
      CommentBehind(s[1..], t);
    }
  }

  lemma {:induction false} SpaceGone(s: string, t: string)
    requires forall i {:trigger s[i]} :: 0 <= i < |s| ==> IsBlank(s[i])
    ensures Minified(s + t) == Minified(t)
  {
    if s == [] {
      assert s + t == t;
    } else {
      assert s + t == [s[0]] + (s[1..] + t);
      First(s[0], s[1..] + t);
      SpaceGone(s[1..], t);
    }
  }

  lemma RemarkGone(s: string, t: string)
    requires PieceOk(Remark(s))
    ensures Minified(Written(Remark(s)) + t) == Minified(t)
  {
    var u := Written(Remark(s)) + t;
    assert u[1..] == ['/'] + (s + (['\n'] + t));
    First('/', s + (['\n'] + t));
    LineBehind(s, t);
    assert Line(u[1..]) == ['\n'] + t;
    First('\n', t);
  }

  lemma BlockGone(s: string, t: string)
    requires PieceOk(Block(s))
    ensures Minified(Written(Block(s)) + t) == Minified(t)
  {
    var u := Written(Block(s)) + t;
    assert u[1..] == ['*'] + s + (['*', '/'] + t);
    forall i | 0 <= i < |s| + 1 ensures (['*'] + s)[i] != NUL && ((['*'] + s)[i] == '*' && i + 1 < |s| + 1 ==> (['*'] + s)[i+1] != '/') {
      if i > 0 { assert (['*'] + s)[i] == s[i-1]; }
    }
    CommentBehind(['*'] + s, t);
    assert Drop(['*', '/'] + t, 2) == t;
  }

  lemma QuoteKept(s: string, t: string)
    requires PieceOk(Quote(s))
    ensures Minified(Written(Quote(s)) + t) == Written(Quote(s)) + Minified(t)
  {
    var u := Written(Quote(s)) + t;
    var end := ['\"'] + t;
    assert u[1..] == s + end;
    CopiedInside(s, t);
    First('\"', t);
    assert Written(Quote(s)) + Minified(t) == ['\"'] + s + (['\"'] + Minified(t));
  }

  /** Each piece is kept or taken out, whatever follows it. */
  lemma PieceMinified(p: Piece, t: string)
    requires PieceOk(p)
    ensures Minified(Written(p) + t) == Kept(p) + Minified(t)
  {
    assert [] + Minified(t) == Minified(t);
    match p
    case Plain(c) => First(c, t);
    case Quote(s) => QuoteKept(s, t);
    case Space(s) => SpaceGone(s, t);
    case Remark(s) => RemarkGone(s, t);
    case Block(s) => BlockGone(s, t);
  }

  /** cJSON_Minify takes white space and comments out of a text, wherever they stand, and nothing else. */
  lemma {:induction false} PiecesMinified(ps: seq<Piece>)
    requires forall i {:trigger ps[i]} :: 0 <= i < |ps| ==> PieceOk(ps[i])
    ensures Minified(AllWritten(ps)) == AllKept(ps)
  {
    if ps != [] {
      PiecesMinified(ps[1..]);
      PieceMinified(ps[0], AllWritten(ps[1..]));
    }
  }

  /** The opening mark of a comment may share its star with the closing one: a slash right behind it ends the comment. */
  lemma SharedStar(t: string)
    ensures Minified(['/', '*', '/'] + t) == Minified(t)
  {
  }
}
