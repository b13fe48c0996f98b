/** The console command parser (Client/Utils/CommandParser.h).

    A handler (`std::function`) is an opaque callable; here it is a handler number,
    and running one appends an `Invocation` to the parser's log. The "Unknown
    command" console line is output and is not modelled. */
module Commands {

  /** The characters `std::isspace` accepts in the "C" locale. */
  predicate IsSpace(c: char) {
    c == ' ' || c == '\t' || c == '\n' || c == '\U{0B}' || c == '\U{0C}' || c == '\r'
  }

  /** The tokens `iss >> token` extracts from s when `tok` holds the characters of
      the token read so far. */
  function Split(s: string, tok: string): seq<string>
    decreases |s|
  {
    if |s| == 0 then (if tok == [] then [] else [tok])
    else if IsSpace(s[0]) then
      (if tok == [] then [] else [tok]) + Split(s[1..], [])
    else Split(s[1..], tok + [s[0]])
  }

  /** `splitArgs`. */
  function Tokens(s: string): seq<string> {
    Split(s, [])
  }

  /** A word: nonempty and without whitespace. */
  predicate IsWord(w: string) {
    |w| > 0 && forall i :: 0 <= i < |w| ==> !IsSpace(w[i])
  }

  /** The characters of s other than whitespace, in order. */
  function NonSpace(s: string): (r: string)
    decreases |s|
  {
    if |s| == 0 then []
    else (if IsSpace(s[0]) then [] else [s[0]]) + NonSpace(s[1..])
  }

  function Concat(ws: seq<string>): string {
    if |ws| == 0 then [] else ws[0] + Concat(ws[1..])
  }

  lemma {:induction false} ConcatAppend(a: seq<string>, b: seq<string>)
    ensures Concat(a + b) == Concat(a) + Concat(b)
    decreases |a|
  {
    if |a| > 0 {
      assert (a + b)[1..] == a[1..] + b;
      ConcatAppend(a[1..], b);
    } else {
      assert a + b == b;
    }
  }

  /** Every token is a word. */
  lemma {:induction false} SplitWords(s: string, tok: string)
    requires forall i :: 0 <= i < |tok| ==> !IsSpace(tok[i])
    ensures forall k :: 0 <= k < |Split(s, tok)| ==> IsWord(Split(s, tok)[k])
    decreases |s|
  {
    if |s| > 0 {
      if IsSpace(s[0]) {
        SplitWords(s[1..], []);
      } else {
        SplitWords(s[1..], tok + [s[0]]);
      }
    }
  }

  /** The tokens, run together, are the input without its whitespace: nothing is
      lost and nothing reordered. */
  lemma {:induction false} SplitKeepsCharacters(s: string, tok: string)
    ensures Concat(Split(s, tok)) == tok + NonSpace(s)
    decreases |s|
  {
    if |s| == 0 {
      assert tok + [] == tok;
    } else if IsSpace(s[0]) {
      var head: seq<string> := if tok == [] then [] else [tok];
      SplitKeepsCharacters(s[1..], []);
      ConcatAppend(head, Split(s[1..], []));
      assert Concat(head) == tok;
    } else {
      SplitKeepsCharacters(s[1..], tok + [s[0]]);
      assert (tok + [s[0]]) + NonSpace(s[1..]) == tok + ([s[0]] + NonSpace(s[1..]));
    }
  }

  /** A whitespace character separates tokens: the tokens of the two sides are
      produced independently. */
  lemma {:induction false} SplitAtSpace(a: string, c: char, b: string, tok: string)
    requires IsSpace(c)
    ensures Split(a + [c] + b, tok) == Split(a, tok) + Split(b, [])
    decreases |a|
  {
    if |a| == 0 {
      assert a + [c] + b == [c] + b;
      assert ([c] + b)[1..] == b;
    } else {
      assert (a + [c] + b)[0] == a[0];
      assert (a + [c] + b)[1..] == a[1..] + [c] + b;
      if IsSpace(a[0]) {
        SplitAtSpace(a[1..], c, b, []);
      } else {
        SplitAtSpace(a[1..], c, b, tok + [a[0]]);
      }
    }
  }

  /** A single word is a single token. */
  lemma {:induction false} SplitWord(w: string, tok: string)
    requires forall i :: 0 <= i < |w| ==> !IsSpace(w[i])
    ensures Split(w, tok) == if tok + w == [] then [] else [tok + w]
    decreases |w|
  {
    if |w| > 0 {
      SplitWord(w[1..], tok + [w[0]]);
      assert w == [w[0]] + w[1..];
      assert (tok + [w[0]]) + w[1..] == tok + w;
      assert !IsSpace(w[0]);
    } else {
      assert tok + w == tok;
    }
  }

  /** Blank input has no tokens. */
  lemma {:induction false} BlankHasNoTokens(s: string)
    requires forall i :: 0 <= i < |s| ==> IsSpace(s[i])
    ensures Tokens(s) == []
    decreases |s|
  {
    if |s| > 0 {
      BlankHasNoTokens(s[1..]);
    }
  }

  /** `splitArgs` as the stream loop reads it: one character at a time, closing the
      current token at each whitespace character and at the end. */
  method SplitArgs(s: string) returns (out: seq<string>)
    ensures out == Tokens(s)
  {
    out := [];
    var tok := "";
    var i := 0;
    while i < |s|
      invariant 0 <= i <= |s|
      invariant out + Split(s[i..], tok) == Tokens(s)
    {
      assert s[i..][1..] == s[i + 1..];
      if IsSpace(s[i]) {
        if tok != [] {
          out := out + [tok];
        }
        tok := [];
      } else {
        tok := tok + [s[i]];
      }
      i := i + 1;
    }
    if tok != [] {
      out := out + [tok];
    }
  }

  /** A handler that ran, with the argument list it received. */
  datatype Invocation = Invocation(handler: nat, args: seq<string>)

  class CommandParser {
    var commands: map<string, nat>
    /** The handlers run so far, in order. */
    var log: seq<Invocation>

    constructor()
      ensures commands == map[] && log == []
    {
      commands := map[];
      log := [];
    }

    /** Stores the handler under the name, replacing any earlier one. */
    method RegisterCommand(command: string, handler: nat)
      modifies this
      ensures commands == old(commands)[command := handler]
      ensures log == old(log)
    {
      commands := commands[command := handler];
    }

    /** Runs the handler registered under the first token, once, with every token
        (the command name included); blank input and unknown names run nothing. */
    method ParseCommand(input: string)
      modifies this
      ensures commands == old(commands)
      ensures Tokens(input) == [] ==> log == old(log)
      ensures Tokens(input) != [] && Tokens(input)[0] !in commands ==> log == old(log)
      ensures Tokens(input) != [] && Tokens(input)[0] in commands ==>
        log == old(log) + [Invocation(commands[Tokens(input)[0]], Tokens(input))]
    {
      var args := SplitArgs(input);
      if |args| == 0 {
        return;
      }
      var command := args[0];
      if command in commands {
        log := log + [Invocation(commands[command], args)];
      }
    }
  }
}
