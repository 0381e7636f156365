/** The comment scanner of tsconfig files: what it keeps, and that it finds nothing more on what it kept. */
module Jsonc {

  /** A string literal (perhaps unterminated, at the end), a comment, or any other character. */
  datatype Token = Literal(text: string) | Comment(text: string) | Other(text: string)

  /** The index of the closing quote, from inside a literal; past the end when there is none. */
  function StringEnd(text: string, from: nat): (end: nat)
    ensures end >= from
    decreases if from < |text| then |text| - from else 0
  {
    if from >= |text| || text[from] == '"' then from
    else StringEnd(text, if text[from] == '\\' then from + 2 else from + 1)
  }

  /** The end of a line comment: the next line feed, which stays, or the end of the text. */
  function LineEnd(text: string, from: nat): (end: nat)
    requires from <= |text|
    ensures from <= end <= |text| && (end == |text| || text[end] == '\n')
    ensures forall k :: from <= k < end ==> text[k] != '\n'
    decreases |text| - from
  {
    if from == |text| || text[from] == '\n' then from else LineEnd(text, from + 1)
  }

  /** The end of a block comment, from inside it: just past the first star and slash, or the end of the text without one. */
  function BlockEnd(text: string, from: nat): (end: nat)
    requires from <= |text|
    ensures from <= end <= |text|
    ensures end == |text| || (end >= from + 2 && text[end - 2] == '*' && text[end - 1] == '/')
    ensures forall k :: from <= k && k + 2 < end ==> !(text[k] == '*' && text[k + 1] == '/')
    decreases |text| - from
  {
    if from + 1 >= |text| then |text|
    else if text[from] == '*' && text[from + 1] == '/' then from + 2
    else BlockEnd(text, from + 1)
  }

  function Min(a: nat, b: nat): (m: nat)
    ensures m <= a && m <= b && (m == a || m == b)
  {
    if a < b then a else b
  }

  /** The first token of a text. */
  function FirstToken(text: string): (t: Token)
    requires text != ""
    ensures 1 <= |t.text| <= |text| && t.text == text[..|t.text|]
  {
    if text[0] == '"' then Literal(text[..Min(StringEnd(text, 1) + 1, |text|)])
    else if |text| > 1 && text[0] == '/' && text[1] == '/' then Comment(text[..LineEnd(text, 2)])
    else if |text| > 1 && text[0] == '/' && text[1] == '*' then Comment(text[..BlockEnd(text, 2)])
    else Other(text[..1])
  }

  function Tokens(text: string): seq<Token>
    decreases |text|
  {
    if text == "" then [] else var t := FirstToken(text); [t] + Tokens(text[|t.text|..])
  }

  function Kept(tokens: seq<Token>): seq<Token> {
    if tokens == [] then [] else (if tokens[0].Comment? then [] else [tokens[0]]) + Kept(tokens[1..])
  }

  function TextOf(tokens: seq<Token>): string {
    if tokens == [] then "" else tokens[0].text + TextOf(tokens[1..])
  }

  /** The text without its comments. */
  function Stripped(text: string): string {
    TextOf(Kept(Tokens(text)))
  }

  /** What one turn of the scan does to a text: its first token goes to the output, unless it is a comment. */
  lemma StrippedStep(text: string)
    requires text != ""
    ensures var t := FirstToken(text);
            Stripped(text) == (if t.Comment? then "" else t.text) + Stripped(text[|t.text|..])
  {
    var t := FirstToken(text);
    var tokens := Tokens(text);
    assert tokens[1..] == Tokens(text[|t.text|..]);
    if t.Comment? {
      assert Kept(tokens) == Kept(tokens[1..]);
    } else {
      assert Kept(tokens) == [t] + Kept(tokens[1..]);
      assert Kept(tokens)[1..] == Kept(tokens[1..]);
    }
  }

  /** The inner loop over a string literal that opens at `index`. */
  method EndOfLiteral(text: string, index: nat) returns (end: nat)
    requires index < |text| && text[index] == '"'
    ensures end >= index + 1 && end - index == StringEnd(text[index..], 1)
  {
    end := index + 1;
    while end < |text| && text[end] != '"'
      invariant index + 1 <= end && StringEnd(text[index..], end - index) == StringEnd(text[index..], 1)
      decreases |text| - end
    {
      end := end + (if text[end] == '\\' then 2 else 1);
    }
  }

  /** The inner loop over a line comment that starts at `from`. */
  method EndOfLine(text: string, from: nat) returns (index: nat)
    requires from + 1 < |text| && text[from] == '/' && text[from + 1] == '/'
    ensures from + 2 <= index <= |text| && index - from == LineEnd(text[from..], 2)
  {
    index := from;
    while index < |text| && text[index] != '\n'
      invariant from <= index <= |text|
      invariant LineEnd(text[from..], index - from) == LineEnd(text[from..], 2)
    {
      index := index + 1;
    }
  }

  /** One turn of the scanning loop: what it appends to the output, and the index it goes on from. */
  method Turn(text: string, index: nat) returns (piece: string, next: nat)
    requires index < |text|
    ensures var t := FirstToken(text[index..]);
            piece == (if t.Comment? then "" else t.text) && Min(next, |text|) == index + |t.text|
  {
    hide StringEnd, LineEnd, BlockEnd;
    if text[index] == '"' {
      var end := EndOfLiteral(text, index);
      piece := text[index..Min(end + 1, |text|)];
      next := end + 1;
    } else if index + 1 < |text| && text[index] == '/' && text[index + 1] == '/' {
      piece := "";
      next := EndOfLine(text, index);
    } else if index + 1 < |text| && text[index] == '/' && text[index + 1] == '*' {
      piece := "";
      next := index + BlockEnd(text[index..], 2);
    } else {
      piece := [text[index]];
      next := index + 1;
    }
  }

  /** The scanning loop of `stripJsonc`: it advances on every turn. */
  method StripComments(text: string) returns (out: string)
    ensures out == Stripped(text)
  {
    hide *;
    out := "";
    var index := 0;
    assert text[Min(0, |text|)..] == text;
    while index < |text|
      invariant out + Stripped(text[Min(index, |text|)..]) == Stripped(text)
      decreases |text| - index
    {
      ghost var rest := text[index..];
      ghost var was := out;
      ghost var n := |FirstToken(rest).text|;
      var piece, next := Turn(text, index);
      StrippedStep(rest);
      assert rest[n..] == text[index + n..];
      out := out + piece;
      assert was + (piece + Stripped(rest[n..])) == out + Stripped(rest[n..]);
      index := next;
    }
    assert text[Min(index, |text|)..] == "";
    StrippedOfEmpty();
  }

  lemma StrippedOfEmpty()
    ensures Stripped("") == ""
  {
  }

  // ---- What the tokens are ----

  /** How many backslashes stand right before a place, inside a literal whose content starts at `from`. */
  function Backslashes(text: string, from: nat, k: nat): nat
    requires from <= k <= |text|
    decreases k
  {
    if k == from || text[k - 1] != '\\' then 0 else 1 + Backslashes(text, from, k - 1)
  }

  /** A character is escaped by an odd number of backslashes before it. */
  predicate Escaped(text: string, from: nat, k: nat)
    requires from <= k <= |text|
  {
    Backslashes(text, from, k) % 2 == 1
  }

  lemma {:induction false} QuotesBefore(text: string, from: nat, at: nat)
    requires from <= at && (at <= |text| ==> !Escaped(text, from, at))
    ensures var end := StringEnd(text, at);
            && (end < |text| ==> text[end] == '"' && !Escaped(text, from, end))
            && forall k :: at <= k < end && k < |text| && text[k] == '"' ==> Escaped(text, from, k)
    decreases if at < |text| then |text| - at else 0
  {
    if at < |text| && text[at] != '"' {
      var next := if text[at] == '\\' then at + 2 else at + 1;
      assert text[at] == '\\' ==> Backslashes(text, from, at + 1) == 1 + Backslashes(text, from, at);
      assert text[at] == '\\' && at + 1 < |text| && text[at + 1] == '\\' ==>
        Backslashes(text, from, at + 2) == 1 + Backslashes(text, from, at + 1);
      QuotesBefore(text, from, next);
    }
  }

  /** A literal ends at its first quote that no odd number of backslashes escapes. */
  lemma LiteralEndsAtItsQuote(text: string, from: nat)
    requires from <= |text|
    ensures var end := StringEnd(text, from);
            && (end < |text| ==> text[end] == '"' && !Escaped(text, from, end))
            && forall k :: from <= k < end && k < |text| && text[k] == '"' ==> Escaped(text, from, k)
  {
    QuotesBefore(text, from, from);
  }

  /** What a text starts with: a literal at a quote, a comment at two slashes or a slash and a star, else one character. */
  lemma TokensByFirstCharacters(text: string)
    requires text != ""
    ensures FirstToken(text).Literal? <==> text[0] == '"'
    ensures FirstToken(text).Comment? <==> |text| > 1 && text[0] == '/' && (text[1] == '/' || text[1] == '*')
    ensures FirstToken(text).Other? ==> |FirstToken(text).text| == 1
    ensures FirstToken(text).Comment? ==> |FirstToken(text).text| >= 2
  {
  }

  /** Where a comment ends: a line comment before its line feed, a block comment with the first star and slash after it has opened. */
  lemma CommentsEnd(text: string)
    requires text != "" && FirstToken(text).Comment?
    ensures var n := |FirstToken(text).text|;
            if text[1] == '/' then
              (n == |text| || text[n] == '\n') && forall k :: 2 <= k < n ==> text[k] != '\n'
            else
              && (n == |text| || (n >= 4 && text[n - 2] == '*' && text[n - 1] == '/'))
              && forall k :: 2 <= k && k + 2 < n ==> !(text[k] == '*' && text[k + 1] == '/')
  {
  }

  lemma KeptStep(tokens: seq<Token>)
    requires tokens != []
    ensures Kept(tokens) == (if tokens[0].Comment? then [] else [tokens[0]]) + Kept(tokens[1..])
  {
  }

  lemma {:induction false} KeptConcat(a: seq<Token>, b: seq<Token>)
    ensures Kept(a + b) == Kept(a) + Kept(b)
    decreases |a|
  {
    if a == [] {
      assert Kept(a) == [] && a + b == b && [] + Kept(b) == Kept(b);
    } else {
      KeptConcat(a[1..], b);
      KeptStep(a);
      KeptStep(a + b);
      hide Kept;
      assert (a + b)[1..] == a[1..] + b && (a + b)[0] == a[0];
    }
  }

  /** Comments go and nothing else does: piece by piece, in order. */
  lemma KeptPieces(a: seq<Token>, t: Token, b: seq<Token>)
    ensures Kept(a + [t] + b) == Kept(a) + (if t.Comment? then [] else [t]) + Kept(b)
  {
    KeptConcat(a + [t], b);
    KeptConcat(a, [t]);
    KeptStep([t]);
    assert Kept([]) == [];
    hide Kept;
    assert [t][1..] == [];
  }

  lemma {:induction false} AllKept(tokens: seq<Token>)
    requires forall t <- tokens :: !t.Comment?
    ensures Kept(tokens) == tokens
  {
    if tokens != [] {
      assert tokens[0] in tokens && forall t <- tokens[1..] :: t in tokens;
      AllKept(tokens[1..]);
      assert [tokens[0]] + tokens[1..] == tokens;
    }
  }

  /** A text without comments stays as it is. */
  lemma NothingToStrip(text: string)
    requires forall t <- Tokens(text) :: !t.Comment?
    ensures Stripped(text) == text
  {
    AllKept(Tokens(text));
    TokensSpell(text);
  }

  // ---- What the scan promises ----

  /** A text is its tokens, in order. */
  lemma {:induction false} TokensSpell(text: string)
    ensures TextOf(Tokens(text)) == text
    decreases |text|
  {
    hide FirstToken;
    if text != "" {
      var n := |FirstToken(text).text|;
      TokensSpell(text[n..]);
      assert Tokens(text) == [FirstToken(text)] + Tokens(text[n..]);
      assert Tokens(text)[1..] == Tokens(text[n..]);
      assert text == text[..n] + text[n..];
    }
  }

  /** A closed literal ends where it ends, whatever follows. */
  lemma {:induction false} StringEndIsLocal(text: string, from: nat, other: string)
    requires StringEnd(text, from) < |text| && |other| > StringEnd(text, from)
    requires other[..StringEnd(text, from) + 1] == text[..StringEnd(text, from) + 1]
    ensures StringEnd(other, from) == StringEnd(text, from)
    decreases |text| - from
  {
    assert forall k :: 0 <= k <= StringEnd(text, from) ==> other[k] == other[..StringEnd(text, from) + 1][k] == text[k];
    if text[from] != '"' {
      var next := if text[from] == '\\' then from + 2 else from + 1;
      StringEndIsLocal(text, next, other);
    }
  }

  /** What remains of a text that does not start with a comment begins as the text does. */
  lemma StrippedBegins(text: string)
    requires text != "" && !FirstToken(text).Comment?
    ensures Stripped(text) != "" && Stripped(text)[0] == text[0]
  {
    StrippedStep(text);
  }

  /** Before what remains of the rest, a kept token is read again as itself: removing a comment never makes a new token. */
  lemma KeptTokenStays(text: string)
    requires text != "" && !FirstToken(text).Comment?
    ensures var t := FirstToken(text);
            var left := t.text + Stripped(text[|t.text|..]);
            FirstToken(left) == t && left[|t.text|..] == Stripped(text[|t.text|..])
  {
    var t := FirstToken(text);
    var rest := text[|t.text|..];
    var left := t.text + Stripped(rest);
    if t.Literal? {
      if StringEnd(text, 1) < |text| {
        StringEndIsLocal(text, 1, left);
      } else {
        assert rest == "" && left == text;
      }
    } else if rest != "" && text[0] == '/' {
      assert rest[0] == text[1] && !FirstToken(rest).Comment?;
      StrippedBegins(rest);
    }
  }

  /**
   The scanner keeps exactly the literals and the other characters, each whole and in order: scanning its output finds those
   same tokens and no comment.
  */
  lemma {:induction false} ScanOfStripped(text: string)
    ensures Tokens(Stripped(text)) == Kept(Tokens(text))
    decreases |text|
  {
    if text != "" {
      var t := FirstToken(text);
      ScanOfStripped(text[|t.text|..]);
      StrippedStep(text);
      assert Tokens(text)[1..] == Tokens(text[|t.text|..]);
      if t.Comment? {
        assert Kept(Tokens(text)) == Kept(Tokens(text)[1..]);
        assert Stripped(text) == Stripped(text[|t.text|..]);
      } else {
        KeptTokenStays(text);
        assert Kept(Tokens(text)) == [t] + Kept(Tokens(text)[1..]);
      }
    }
  }

  function Literals(tokens: seq<Token>): seq<Token> {
    if tokens == [] then [] else (if tokens[0].Literal? then [tokens[0]] else []) + Literals(tokens[1..])
  }

  lemma {:induction false} KeptLiterals(tokens: seq<Token>)
    ensures Literals(Kept(tokens)) == Literals(tokens) && Kept(Kept(tokens)) == Kept(tokens)
    ensures forall k :: 0 <= k < |Kept(tokens)| ==> !Kept(tokens)[k].Comment?
    decreases |tokens|
  {
    if tokens != [] {
      KeptLiterals(tokens[1..]);
      if tokens[0].Comment? {
        assert Kept(tokens) == Kept(tokens[1..]);
      } else {
        assert Kept(tokens) == [tokens[0]] + Kept(tokens[1..]);
        assert Kept(tokens)[1..] == Kept(tokens[1..]);
      }
    }
  }

  /** Every string literal survives verbatim and in order, and a second scan changes nothing. */
  lemma StripKeepsLiterals(text: string)
    ensures Literals(Tokens(Stripped(text))) == Literals(Tokens(text))
    ensures Stripped(Stripped(text)) == Stripped(text)
    ensures forall k :: 0 <= k < |Tokens(Stripped(text))| ==> !Tokens(Stripped(text))[k].Comment?
  {
    ScanOfStripped(text);
    KeptLiterals(Tokens(text));
  }
}
