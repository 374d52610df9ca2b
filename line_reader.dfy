/** The tokenizer, the token cursor over one line, and the two-phase buffer of
    tokenized lines (src/stormaudio_isp_telnet/line_reader.py). */
module LineReader {
  import opened Wrappers
  import opened Strings

  /** A path segment, or the argument list split out of a trailing `[...]`. */
  datatype Token = Word(text: string) | Args(items: seq<string>)

  datatype Tokenized = Tokenized(raw: string, tokens: seq<Token>)

  /** A tokenized line. The tokenizer always yields at least one token (a
      split always yields at least one piece), so a cursor over a line always
      starts at index 0. */
  type TokenizedLine = l: Tokenized | l.tokens != [] witness Tokenized("", [Word("")])

  function Words(parts: seq<string>): (r: seq<Token>)
    ensures |r| == |parts|
    ensures forall i :: 0 <= i < |parts| ==> r[i] == Word(parts[i])
  {
    seq(|parts|, i requires 0 <= i < |parts| => Word(parts[i]))
  }

  /** `TokenizedLine(line)`: split the path on '.', and, when the line holds
      both a '[' and a ']', split the text between the first '[' and the last
      ']' on ", " into one final argument-list token. The path then ends one
      character before the '[' (the dot that precedes it), with Python's
      slicing rules applied to that bound. */
  function Tokenize(line: string): (r: TokenizedLine)
    ensures r.raw == line
  {
    var open := Find(line, "[");
    var close := RFindChar(line, ']');
    if open != -1 && close != -1 then
      var payload := Slice(line, open + 1, close);
      var path := Slice(line, 0, open - 1);
      Tokenized(line, Words(Split(path, ".")) + [Args(Split(payload, ", "))])
    else
      Tokenized(line, Words(Split(line, ".")))
  }

  /** `Find` of a one-character string finds the first occurrence of that character. */
  lemma FindChar(s: string, c: char)
    ensures Find(s, [c]) == -1 <==> c !in s
    ensures Find(s, [c]) != -1 ==> s[Find(s, [c])] == c && c !in s[..Find(s, [c])]
  {
    var k := Find(s, [c]);
    if c in s {
      var j :| 0 <= j < |s| && s[j] == c;
      assert s[j..j + 1] == [c];
      assert OccursAt(s, [c], j);
    }
    if k != -1 {
      assert s[k..k + 1][0] == s[k];
      forall j | 0 <= j < k ensures s[..k][j] != c {
        assert !OccursAt(s, [c], j);
        assert s[j..j + 1] == [s[j]];
      }
    }
  }

  /** A line without '[' or without ']' tokenizes to exactly its '.'-split
      path segments, with no argument list, and joining the segments with '.'
      gives back the line. */
  lemma TokenizeWithoutBrackets(line: string)
    requires '[' !in line || ']' !in line
    ensures Tokenize(line).tokens == Words(Split(line, "."))
    ensures forall i :: 0 <= i < |Tokenize(line).tokens| ==> Tokenize(line).tokens[i].Word?
    ensures Join(Split(line, "."), ".") == line
  {
    FindChar(line, '[');
    JoinSplit(line, ".");
  }

  /** A line with both brackets: the last token is the argument list between
      the first '[' and the last ']' split on ", " (just `[""]` when that text
      is empty, also when the ']' comes before the '['), and the other tokens
      are the path up to one character before the '[' split on '.' (when the
      '[' is the first character, that is the whole line but its last
      character). */
  lemma TokenizeWithBrackets(line: string, open: nat, close: nat)
    requires open < |line| && line[open] == '[' && '[' !in line[..open]
    requires close < |line| && line[close] == ']' && ']' !in line[close + 1..]
    ensures var tokens := Tokenize(line).tokens;
      && |tokens| >= 2
      && tokens[|tokens| - 1] == Args(Split(if open < close then line[open + 1..close] else "", ", "))
      && tokens[..|tokens| - 1] == Words(Split(if open > 0 then line[..open - 1] else line[..|line| - 1], "."))
  {
    FindChar(line, '[');
    assert Find(line, "[") == open;
    var c := RFindChar(line, ']');
    forall j | close < j < |line| ensures line[j] != ']' {
      assert line[close + 1..][j - close - 1] == line[j];
    }
    assert c == close;
    var tokens := Tokenize(line).tokens;
    var path := Words(Split(Slice(line, 0, open - 1), "."));
    assert tokens == path + [Args(Split(Slice(line, open + 1, close), ", "))];
    assert tokens[..|tokens| - 1] == path;
  }

  /** An empty argument list `[]` tokenizes to the one-element list `[""]`. */
  lemma EmptyBracketPayload(path: string)
    requires '[' !in path && ']' !in path
    ensures Tokenize(path + ".[]").tokens[|Tokenize(path + ".[]").tokens| - 1] == Args([""])
  {
    var line := path + ".[]";
    var open := |path| + 1;
    assert line[open] == '[' && line[..open] == path + ".";
    assert line[open + 1] == ']' && line[open + 2..] == [];
    TokenizeWithBrackets(line, open, open + 1);
    assert Find("", ", ") == -1;
  }

  /** The tokens of a line of the form `<path>.[<args>]` when the path and the
      arguments hold no bracket: the path's segments, then the arguments. */
  lemma TokenizeCommand(path: string, payload: string)
    requires '[' !in path && ']' !in path && '[' !in payload && ']' !in payload
    ensures Tokenize(path + ".[" + payload + "]").tokens
         == Words(Split(path, ".")) + [Args(Split(payload, ", "))]
  {
    var line := path + ".[" + payload + "]";
    var open := |path| + 1;
    var close := |line| - 1;
    assert line[open] == '[' && line[..open] == path + ".";
    assert line[close] == ']' && line[close + 1..] == [];
    assert line[open + 1..close] == payload;
    assert line[..open - 1] == path;
    TokenizeWithBrackets(line, open, close);
  }

  /** Python's `TokenizedLine(line)` for every line of a list, in order. */
  function TokenizeAll(raws: seq<string>): (r: seq<TokenizedLine>)
    ensures |r| == |raws|
    ensures forall i :: 0 <= i < |raws| ==> r[i] == Tokenize(raws[i])
  {
    seq(|raws|, i requires 0 <= i < |raws| => Tokenize(raws[i]))
  }

  lemma TokenizeAllSnoc(raws: seq<string>, i: nat)
    requires i < |raws|
    ensures TokenizeAll(raws[..i + 1]) == TokenizeAll(raws[..i]) + [Tokenize(raws[i])]
  {
  }

  /** `expected` occurs in `tokens` starting at index `i`. */
  predicate TokensAt(tokens: seq<Token>, i: nat, expected: seq<Token>) {
    i + |expected| <= |tokens| && tokens[i..i + |expected|] == expected
  }

  /** The token at index `i`, if there is one. */
  function TokenAt(tokens: seq<Token>, i: nat): Option<Token> {
    if i < |tokens| then Some(tokens[i]) else None
  }

  /** `TokenizedLineReader`: a cursor over the tokens of one line. */
  class TokenReader {
    const line: TokenizedLine
    var next: nat

    ghost predicate Valid()
      reads this
    {
      next <= |line.tokens|
    }

    constructor (line: TokenizedLine)
      ensures Valid() && this.line == line && next == 0
    {
      this.line := line;
      next := 0;
    }

    /** `pop_next_token_if_equal`: advance by one exactly when the token at
        the cursor equals `expected` (a word equals only an equal word, an
        argument list only an equal list). */
    method PopTokenIfEqual(expected: Token) returns (popped: bool)
      requires Valid()
      modifies this
      ensures Valid()
      ensures popped <==> old(next) < |line.tokens| && line.tokens[old(next)] == expected
      ensures next == if popped then old(next) + 1 else old(next)
    {
      popped := false;
      if next < |line.tokens| && line.tokens[next] == expected {
        next := next + 1;
        popped := true;
      }
    }

    /** `pop_next_tokens_if_equal`: atomic. On success the cursor has moved
        past all of `expected`; on failure it is back where it started. */
    method PopTokensIfEqual(expected: seq<Token>) returns (popped: bool)
      requires Valid()
      modifies this
      ensures Valid()
      ensures popped <==> TokensAt(line.tokens, old(next), expected)
      ensures next == if popped then old(next) + |expected| else old(next)
    {
      var count := 0;
      for i := 0 to |expected|
        invariant Valid() && count == i && next == old(next) + count
        invariant TokensAt(line.tokens, old(next), expected[..i])
      {
        var ok := PopTokenIfEqual(expected[i]);
        if ok {
          count := count + 1;
          assert line.tokens[old(next)..old(next) + i + 1]
              == line.tokens[old(next)..old(next) + i] + [expected[i]];
          assert expected[..i + 1] == expected[..i] + [expected[i]];
        } else {
          next := next - count;
          assert !TokensAt(line.tokens, old(next), expected) by {
            if old(next) + |expected| <= |line.tokens| {
              assert line.tokens[old(next)..old(next) + |expected|][i] == line.tokens[old(next) + i];
            }
          }
          return false;
        }
      }
      assert expected[..|expected|] == expected;
      return true;
    }

    /** `pop_next_token`: the token at the cursor, advancing past it, or
        `None` without moving once the line is exhausted. */
    method PopToken() returns (t: Option<Token>)
      requires Valid()
      modifies this
      ensures Valid()
      ensures t == TokenAt(line.tokens, old(next))
      ensures next == if old(next) < |line.tokens| then old(next) + 1 else old(next)
    {
      if next < |line.tokens| {
        t := Some(line.tokens[next]);
        next := next + 1;
      } else {
        t := None;
      }
    }
  }

  /** The state of `TokenizedLinesReader` as a value: the lines, the index of
      the next line to read and the index saved at the last commit. */
  datatype LinesState = LinesState(lines: seq<TokenizedLine>, next: Option<nat>, saved: Option<nat>) {

    /** The indices are unset exactly when there are no lines, and otherwise
        saved <= next <= |lines|. */
    predicate Valid() {
      if lines == [] then next.None? && saved.None?
      else next.Some? && saved.Some? && saved.value <= next.value <= |lines|
    }

    /** The lines not yet committed. */
    function Pending(): seq<TokenizedLine>
      requires Valid()
    {
      if saved.Some? then lines[saved.value..] else []
    }

    /** The lines not yet read. */
    function Unread(): seq<TokenizedLine>
      requires Valid()
    {
      if next.Some? then lines[next.value..] else []
    }

    /** No line has been read since the last commit or rollback. */
    predicate Settled() {
      next == saved
    }

    /** `has_next_line`. */
    predicate HasNext() {
      next.Some? && next.value < |lines|
    }

    /** The line `read_next_line` returns. */
    function Head(): (l: TokenizedLine)
      requires Valid() && HasNext()
      ensures l == Unread()[0]
    {
      lines[next.value]
    }

    /** The state after `read_next_line` on a buffer with an unread line. */
    function Advance(): (r: LinesState)
      requires Valid() && HasNext()
      ensures r.Valid() && r.HasNext() == (|Unread()| > 1)
      ensures r.Pending() == Pending() && r.Unread() == Unread()[1..]
      ensures r.lines == lines && r.saved == saved
    {
      this.(next := Some(next.value + 1))
    }

    /** The state `n` lines further on. */
    function Skip(n: nat): LinesState
      requires next.Some?
    {
      this.(next := Some(next.value + n))
    }

    /** `consume_read_lines`: commit everything read so far; the storage is
        dropped once every line has been read. */
    function Consume(): (r: LinesState)
      requires Valid()
      ensures r.Valid() && r.Settled()
      ensures r.Pending() == Unread() && r.Unread() == Unread()
      ensures next == Some(|lines|) ==> r.lines == []
    {
      if next == Some(|lines|) then LinesState([], None, None) else this.(saved := next)
    }

    /** `reset_read_lines`: roll back, so that every line read since the last
        commit is unread again, in the same order. */
    function Reset(): (r: LinesState)
      requires Valid()
      ensures r.Valid() && r.Settled()
      ensures r.Pending() == Pending() && r.Unread() == Pending()
      ensures r.lines == lines
    {
      this.(next := saved)
    }

    /** `add_lines`: tokenize and append; the indices start at 0 when the
        buffer was empty. */
    function Add(raws: seq<string>): (r: LinesState)
      requires Valid()
      ensures r.Valid()
      ensures r.Pending() == Pending() + TokenizeAll(raws)
      ensures r.Unread() == Unread() + TokenizeAll(raws)
      ensures Settled() ==> r.Settled()
    {
      var added := TokenizeAll(raws);
      var all := lines + added;
      if next.None? && |all| > 0 then
        assert all == added;
        LinesState(all, Some(0), Some(0))
      else
        AppendSuffix(lines, added, if saved.Some? then saved.value else 0);
        AppendSuffix(lines, added, if next.Some? then next.value else 0);
        LinesState(all, next, saved)
    }
  }

  lemma AppendSuffix<T>(a: seq<T>, b: seq<T>, k: nat)
    requires k <= |a|
    ensures (a + b)[k..] == a[k..] + b
  {
  }

  /** `TokenizedLinesReader`: the queue of tokenized lines with its read index
      and its saved (committed) index, updated in place. */
  class LinesReader {
    var lines: seq<TokenizedLine>
    var next: Option<nat>
    var saved: Option<nat>

    ghost function Value(): LinesState
      reads this
    {
      LinesState(lines, next, saved)
    }

    ghost predicate Valid()
      reads this
    {
      Value().Valid()
    }

    constructor ()
      ensures Valid() && Value() == LinesState([], None, None)
    {
      lines := [];
      next := None;
      saved := None;
    }

    /** `has_next_line`. */
    function HasNextLine(): (b: bool)
      reads this
      ensures b == Value().HasNext()
    {
      next.Some? && next.value < |lines|
    }

    /** `add_lines`. */
    method AddLines(raws: seq<string>)
      requires Valid()
      modifies this
      ensures Valid() && Value() == old(Value()).Add(raws)
    {
      for i := 0 to |raws|
        invariant lines == old(lines) + TokenizeAll(raws[..i])
        invariant next == old(next) && saved == old(saved)
      {
        TokenizeAllSnoc(raws, i);
        lines := lines + [Tokenize(raws[i])];
      }
      assert raws[..|raws|] == raws;
      if next.None? && |lines| > 0 {
        next := Some(0);
        saved := Some(0);
      }
    }

    /** `read_next_line`: a fresh cursor over the next unread line, or `null`
        (Python's `None`) with nothing changed when every line has been read. */
    method ReadNextLine() returns (reader: TokenReader?)
      requires Valid()
      modifies this
      ensures Valid()
      ensures old(Value()).HasNext() ==>
        && reader != null && fresh(reader) && reader.Valid()
        && reader.line == old(Value()).Head() && reader.next == 0
        && Value() == old(Value()).Advance()
      ensures !old(Value()).HasNext() ==> reader == null && Value() == old(Value())
    {
      if next.None? || next.value == |lines| {
        return null;
      }
      reader := new TokenReader(lines[next.value]);
      next := Some(next.value + 1);
    }

    /** `consume_read_lines`. */
    method ConsumeReadLines()
      requires Valid()
      modifies this
      ensures Valid() && Value() == old(Value()).Consume()
    {
      if next == Some(|lines|) {
        next := None;
        saved := None;
        lines := [];
      } else {
        saved := next;
      }
    }

    /** `reset_read_lines`. */
    method ResetReadLines()
      requires Valid()
      modifies this
      ensures Valid() && Value() == old(Value()).Reset()
    {
      next := saved;
    }
  }
}
