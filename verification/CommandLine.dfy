/** The Windows argument quoter and the argument tokenizer undo each other. */
module CommandLine {

  datatype Token = Token(value: string, quoted: bool)

  /** White space as a regular expression's `\s` has it. */
  predicate IsSpace(c: char) {
    c in "\t\n\r \U{000B}\U{000C}\U{00A0}\U{1680}\U{2028}\U{2029}\U{202F}\U{205F}\U{3000}\U{FEFF}"
    || '\U{2000}' <= c <= '\U{200A}'
  }

  function Slashes(n: nat): (s: string)
    ensures |s| == n && forall i :: 0 <= i < n ==> s[i] == '\\'
  {
    seq(n, _ => '\\')
  }

  lemma SlashesAdd(m: nat, n: nat)
    ensures Slashes(m) + Slashes(n) == Slashes(m + n)
  {
  }

  // Quoting

  predicate NeedsQuotes(arg: string) { arg == "" || exists i :: 0 <= i < |arg| && arg[i] in " \t\"" }

  /** What follows in a quoted argument when `pending` backslashes have been seen but not written. */
  function QuotedRest(arg: string, pending: nat): string {
    if arg == "" then Slashes(2 * pending) + "\""
    else if arg[0] == '\\' then QuotedRest(arg[1..], pending + 1)
    else if arg[0] == '"' then Slashes(2 * pending + 1) + "\"" + QuotedRest(arg[1..], 0)
    else Slashes(pending) + [arg[0]] + QuotedRest(arg[1..], 0)
  }

  function Quoted(arg: string): string {
    if NeedsQuotes(arg) then "\"" + QuotedRest(arg, 0) else arg
  }

  lemma {:induction false} RestEnds(arg: string, pending: nat)
    ensures var r := QuotedRest(arg, pending); r != "" && r[|r| - 1] == '"'
    decreases |arg|
  {
    if arg != "" { RestEnds(arg[1..], if arg[0] == '\\' then pending + 1 else 0); }
  }

  /** An argument is quoted exactly if it is empty or has a space, a tab or a quote in it. */
  lemma QuotedEnds(arg: string)
    ensures arg != "" && ' ' !in arg && '\t' !in arg && '"' !in arg ==> Quoted(arg) == arg
    ensures arg == "" || ' ' in arg || '\t' in arg || '"' in arg ==>
              var out := Quoted(arg); |out| >= 2 && out[0] == '"' && out[|out| - 1] == '"'
  {
    hide QuotedRest;
    RestEnds(arg, 0);
  }

  function Joined(args: seq<string>): string {
    if args == [] then "" else if |args| == 1 then Quoted(args[0]) else Quoted(args[0]) + " " + Joined(args[1..])
  }

  /** `quote` */
  method Quote(arg: string) returns (out: string)
    ensures out == Quoted(arg)
  {
    if !NeedsQuotes(arg) { return arg; }
    hide QuotedRest, NeedsQuotes;
    out := "\"";
    var slashes, i := 0, 0;
    assert arg[0..] == arg;
    while i < |arg|
      invariant 0 <= i <= |arg| && slashes >= 0
      invariant out + QuotedRest(arg[i..], slashes) == "\"" + QuotedRest(arg, 0)
    {
      var c := arg[i];
      QuotedStep(arg, i, slashes);
      if c == '\\' {
        slashes := slashes + 1;
      } else {
        out := out + Slashes(if c == '"' then slashes * 2 + 1 else slashes) + [c];
        slashes := 0;
      }
      i := i + 1;
    }
    QuotedEnd(arg, slashes);
    out := out + Slashes(slashes * 2) + "\"";
  }

  lemma QuotedStep(arg: string, i: nat, pending: nat)
    requires i < |arg|
    ensures QuotedRest(arg[i..], pending) ==
            if arg[i] == '\\' then QuotedRest(arg[i + 1..], pending + 1)
            else Slashes(if arg[i] == '"' then 2 * pending + 1 else pending) + [arg[i]] + QuotedRest(arg[i + 1..], 0)
  {
    assert arg[i..][0] == arg[i] && arg[i..][1..] == arg[i + 1..];
  }

  lemma QuotedEnd(arg: string, pending: nat)
    ensures QuotedRest(arg[|arg|..], pending) == Slashes(2 * pending) + "\""
  {
  }

  /** The command line `spawn` builds. */
  method JoinQuoted(args: seq<string>) returns (out: string)
    ensures out == Joined(args)
  {
    out := "";
    var i := |args|;
    while i > 0
      invariant 0 <= i <= |args| && out == Joined(args[i..])
    {
      i := i - 1;
      var quoted := Quote(args[i]);
      assert args[i..][1..] == args[i + 1..];
      out := if i + 1 == |args| then quoted else quoted + " " + out;
    }
    assert args[0..] == args;
  }

  // Tokenizing

  datatype State = State(current: string, inQuotes: bool, started: bool, quoted: bool)

  const IDLE := State("", false, false, false)

  function LeadingSlashes(s: string): (n: nat)
    ensures n <= |s| && (forall i :: 0 <= i < n ==> s[i] == '\\') && (n < |s| ==> s[n] != '\\')
  {
    if s == "" || s[0] != '\\' then 0 else 1 + LeadingSlashes(s[1..])
  }

  lemma LeadingSlashesIs(n: nat, rest: string)
    requires rest == "" || rest[0] != '\\'
    ensures LeadingSlashes(Slashes(n) + rest) == n && (Slashes(n) + rest)[n..] == rest
  {
    var s := Slashes(n) + rest;
    assert forall i :: 0 <= i < n ==> s[i] == '\\';
    assert rest != "" ==> s[n] == rest[0];
  }

  /** The tokens of the rest of a row, from a state of the tokenizer. */
  function Tokens(row: string, st: State): seq<Token>
    decreases |row|
  {
    if row == "" then if st.started then [Token(st.current, st.quoted)] else []
    else if row[0] == '"' then Tokens(row[1..], State(st.current, !st.inQuotes, true, true))
    else if row[0] == '\\' then
      var count := LeadingSlashes(row);
      var rest := row[count..];
      if rest != "" && rest[0] == '"' then Tokens(rest[1..], AfterSlashedQuote(st, count))
      else Tokens(rest, st.(current := st.current + Slashes(count), started := true))
    else if IsSpace(row[0]) && !st.inQuotes then
      if st.started then [Token(st.current, st.quoted)] + Tokens(row[1..], IDLE) else Tokens(row[1..], st)
    else Tokens(row[1..], st.(current := st.current + [row[0]], started := true))
  }

  lemma StepCharacter(row: string, st: State)
    requires row != "" && row[0] != '\\'
    ensures Tokens(row, st) ==
            if row[0] == '"' then Tokens(row[1..], State(st.current, !st.inQuotes, true, true))
            else if IsSpace(row[0]) && !st.inQuotes then
              if st.started then [Token(st.current, st.quoted)] + Tokens(row[1..], IDLE) else Tokens(row[1..], st)
            else Tokens(row[1..], st.(current := st.current + [row[0]], started := true))
  {
  }

  lemma StepSlashes(n: nat, rest: string, st: State)
    requires n > 0 && (rest == "" || rest[0] != '\\')
    ensures Tokens(Slashes(n) + rest, st) ==
            if rest != "" && rest[0] == '"' then Tokens(rest[1..], AfterSlashedQuote(st, n))
            else Tokens(rest, st.(current := st.current + Slashes(n), started := true))
  {
    LeadingSlashesIs(n, rest);
    assert (Slashes(n) + rest)[0] == '\\';
  }

  /** After `count` backslashes and a quote: half of them stand for themselves, an odd one escapes the quote. */
  function AfterSlashedQuote(st: State, count: nat): State {
    if count % 2 == 0
    then st.(current := st.current + Slashes(count / 2), inQuotes := !st.inQuotes, started := true)
    else st.(current := st.current + Slashes(count / 2) + "\"", started := true)
  }

  function RowsTokens(rows: seq<string>): seq<Token> {
    if rows == [] then [] else RowsTokens(rows[..|rows| - 1]) + Tokens(rows[|rows| - 1], IDLE)
  }

  /** The tokens found so far, and those still to come, are the tokens of the row. */
  predicate Pending(row: string, index: nat, result: seq<Token>, st: State)
    requires index <= |row|
  {
    result + Tokens(row[index..], st) == Tokens(row, IDLE)
  }

  lemma PendingCharacter(row: string, index: nat, result: seq<Token>, st: State)
    requires index < |row| && row[index] != '\\' && Pending(row, index, result, st)
    ensures if row[index] == '"' then Pending(row, index + 1, result, State(st.current, !st.inQuotes, true, true))
            else if IsSpace(row[index]) && !st.inQuotes then
              if st.started then Pending(row, index + 1, result + [Token(st.current, st.quoted)], State("", false, false, false))
              else Pending(row, index + 1, result, st)
            else Pending(row, index + 1, result, st.(current := st.current + [row[index]], started := true))
  {
    hide Tokens, IsSpace;
    var rest := row[index..];
    assert rest[1..] == row[index + 1..];
    StepCharacter(rest, st);
  }

  lemma PendingSlashes(row: string, index: nat, count: nat, result: seq<Token>, st: State)
    requires index + count <= |row| && count > 0 && Pending(row, index, result, st)
    requires row[index..] == Slashes(count) + row[index + count..]
    requires index + count < |row| ==> row[index + count] != '\\'
    ensures if index + count < |row| && row[index + count] == '"'
            then Pending(row, index + count + 1, result, AfterSlashedQuote(st, count))
            else Pending(row, index + count, result, st.(current := st.current + Slashes(count), started := true))
  {
    hide Tokens;
    var rest := row[index + count..];
    StepSlashes(count, rest, st);
    if index + count < |row| { assert rest[1..] == row[index + count + 1..]; }
  }

  lemma SlashedQuoteState(st: State, count: nat)
    ensures AfterSlashedQuote(st, count) ==
            if count % 2 == 0 then State(st.current + Slashes(count / 2), !st.inQuotes, true, st.quoted)
            else State(st.current + Slashes(count / 2) + "\"", st.inQuotes, true, st.quoted)
  {
  }

  lemma PendingStart(row: string)
    ensures Pending(row, 0, [], State("", false, false, false))
  {
    assert row[0..] == row;
  }

  lemma PendingEnd(row: string, result: seq<Token>, st: State)
    requires Pending(row, |row|, result, st)
    ensures Tokens(row, IDLE) == if st.started then result + [Token(st.current, st.quoted)] else result
  {
    assert row[|row|..] == "";
  }

  /** The length of the run of backslashes that starts at `index`. */
  method CountSlashes(row: string, index: nat) returns (count: nat)
    requires index < |row| && row[index] == '\\'
    ensures count > 0 && index + count <= |row| && row[index..] == Slashes(count) + row[index + count..]
    ensures index + count < |row| ==> row[index + count] != '\\'
  {
    count := 1;
    while index + count < |row| && row[index + count] == '\\'
      invariant index + count <= |row| && count > 0 && forall k :: index <= k < index + count ==> row[k] == '\\'
    {
      count := count + 1;
    }
  }

  method TokenizeRow(row: string) returns (result: seq<Token>)
    ensures result == Tokens(row, IDLE)
  {
    hide *;
    result := [];
    var current, inQuotes, started, quoted := "", false, false, false;
    var index := 0;
    PendingStart(row);
    while index < |row|
      invariant 0 <= index <= |row|
      invariant Pending(row, index, result, State(current, inQuotes, started, quoted))
      decreases |row| - index
    {
      var character := row[index];
      ghost var st := State(current, inQuotes, started, quoted);
      if character == '\\' {
        started := true;
        var count := CountSlashes(row, index);
        PendingSlashes(row, index, count, result, st);
        SlashedQuoteState(st, count);
        index := index + count;
        if index < |row| && row[index] == '"' {
          index := index + 1;
          current := current + Slashes(count / 2);
          if count % 2 == 0 { inQuotes := !inQuotes; } else { current := current + "\""; }
        } else {
          current := current + Slashes(count);
        }
      } else {
        PendingCharacter(row, index, result, st);
        if character == '"' {
          inQuotes, started, quoted := !inQuotes, true, true;
        } else if IsSpace(character) && !inQuotes {
          if started {
            result := result + [Token(current, quoted)];
            current, started, quoted := "", false, false;
          }
        } else {
          current := current + [character];
          started := true;
        }
        index := index + 1;
      }
    }
    PendingEnd(row, result, State(current, inQuotes, started, quoted));
    if started { result := result + [Token(current, quoted)]; }
  }

  /** `tokenizeCustomArgRows` */
  method TokenizeRows(rows: seq<string>) returns (result: seq<Token>)
    ensures result == RowsTokens(rows)
  {
    result := [];
    var i := 0;
    while i < |rows|
      invariant i <= |rows| && result == RowsTokens(rows[..i])
    {
      var tokens := TokenizeRow(rows[i]);
      assert rows[..i + 1][..i] == rows[..i];
      result := result + tokens;
      i := i + 1;
    }
    assert rows[..i] == rows;
  }

  // The round trip

  /** Backslashes in front of anything but a quote stand for themselves. */
  lemma PlainSlashes(n: nat, rest: string, st: State)
    requires st.started && (rest == "" || (rest[0] != '\\' && rest[0] != '"'))
    ensures Tokens(Slashes(n) + rest, st) == Tokens(rest, st.(current := st.current + Slashes(n)))
  {
    hide Tokens;
    if n == 0 {
      assert Slashes(n) + rest == rest;
      assert st.current + Slashes(n) == st.current;
    } else {
      StepSlashes(n, rest, st);
    }
  }

  lemma SlashedQuote(n: nat, rest: string, st: State)
    requires st.started && st.quoted
    ensures Tokens(Slashes(n) + "\"" + rest, st) == Tokens(rest, AfterSlashedQuote(st, n))
  {
    hide Tokens;
    var quote := "\"" + rest;
    assert quote[1..] == rest;
    assert Slashes(n) + "\"" + rest == Slashes(n) + quote;
    if n == 0 {
      assert Slashes(0) + quote == quote;
      assert st.current + Slashes(0) == st.current;
      StepCharacter(quote, st);
    } else {
      StepSlashes(n, quote, st);
    }
  }

  lemma PlainCharacter(c: char, rest: string, st: State)
    requires st.inQuotes && c != '"' && c != '\\'
    ensures Tokens([c] + rest, st) == Tokens(rest, st.(current := st.current + [c], started := true))
  {
    assert ([c] + rest)[1..] == rest;
  }

  /** Inside quotes the tokenizer reads back what the quoter wrote, and leaves the quotes at its end. */
  lemma {:induction false} QuotedReadsBack(arg: string, pending: nat, tail: string, st: State)
    requires st.inQuotes && st.started && st.quoted
    ensures Tokens(QuotedRest(arg, pending) + tail, st) ==
            Tokens(tail, st.(current := st.current + Slashes(pending) + arg, inQuotes := false))
    decreases arg
  {
    hide Tokens;
    if arg == "" {
      SlashedQuote(2 * pending, tail, st);
      assert st.current + Slashes(pending) + arg == st.current + Slashes(pending);
    } else if arg[0] == '\\' {
      QuotedReadsBack(arg[1..], pending + 1, tail, st);
      SlashesAdd(pending, 1);
      assert Slashes(1) == [arg[0]];
      assert st.current + Slashes(pending + 1) + arg[1..] == st.current + Slashes(pending) + arg;
    } else {
      var rest := QuotedRest(arg[1..], 0) + tail;
      var c, next := arg[0], st.(current := st.current + Slashes(pending) + [arg[0]]);
      if c == '"' {
        assert QuotedRest(arg, pending) + tail == Slashes(2 * pending + 1) + "\"" + rest;
        SlashedQuote(2 * pending + 1, rest, st);
      } else {
        assert QuotedRest(arg, pending) + tail == Slashes(pending) + ([c] + rest);
        PlainSlashes(pending, [c] + rest, st);
        PlainCharacter(c, rest, st.(current := st.current + Slashes(pending)));
      }
      assert Tokens(QuotedRest(arg, pending) + tail, st) == Tokens(rest, next);
      QuotedReadsBack(arg[1..], 0, tail, next);
      assert next.current + Slashes(0) + arg[1..] == st.current + Slashes(pending) + arg;
    }
  }

  predicate HasSpace(s: string) { exists i :: 0 <= i < |s| && IsSpace(s[i]) }

  /** Any white space an argument has is inside quotes. */
  predicate Safe(arg: string) { ' ' in arg || '\t' in arg || '"' in arg || !HasSpace(arg) }

  /** In particular, when its only white space is spaces and tabs. */
  lemma SpacesAndTabsAreSafe(arg: string)
    requires forall i :: 0 <= i < |arg| && IsSpace(arg[i]) ==> arg[i] in " \t"
    ensures Safe(arg)
  {
    hide IsSpace;
  }

  predicate Bare(arg: string) { forall i :: 0 <= i < |arg| ==> arg[i] != '"' && !IsSpace(arg[i]) }

  lemma {:induction false} BareReadsBack(arg: string, tail: string, st: State)
    requires Bare(arg) && arg != "" && !st.inQuotes && (tail == "" || tail[0] == ' ')
    ensures Tokens(arg + tail, st) == Tokens(tail, st.(current := st.current + arg, started := true))
    decreases |arg|
  {
    hide Tokens, IsSpace;
    var n := if arg[0] == '\\' then LeadingSlashes(arg) else 1;
    var rest := arg[n..];
    var next := st.(current := st.current + arg[..n], started := true);
    BareStep(arg, n, tail, st);
    if rest == "" {
      assert rest + tail == tail && arg[..n] == arg;
    } else {
      BareReadsBack(rest, tail, next);
      assert next.current + rest == st.current + arg;
    }
  }

  lemma BareStep(arg: string, n: nat, tail: string, st: State)
    requires Bare(arg) && arg != "" && !st.inQuotes && (tail == "" || tail[0] == ' ')
    requires n == if arg[0] == '\\' then LeadingSlashes(arg) else 1
    ensures Tokens(arg + tail, st) == Tokens(arg[n..] + tail, st.(current := st.current + arg[..n], started := true))
  {
    hide *;
    if arg[0] == '\\' {
      RestIsPlain(arg, n, tail);
      SlashesFirst(arg, n);
      assert arg + tail == arg[..n] + (arg[n..] + tail);
      StepSlashes(n, arg[n..] + tail, st);
    } else {
      assert (arg + tail)[1..] == arg[n..] + tail && (arg + tail)[0] == arg[0];
      assert arg[..n] == [arg[0]];
      BareFirst(arg);
      StepCharacter(arg + tail, st);
    }
  }

  lemma BareFirst(arg: string)
    requires Bare(arg) && arg != ""
    ensures arg[0] != '"' && !IsSpace(arg[0])
  {
  }

  lemma SlashesFirst(arg: string, n: nat)
    requires arg != "" && arg[0] == '\\' && n == LeadingSlashes(arg)
    ensures 0 < n <= |arg| && arg[..n] == Slashes(n)
  {
  }

  lemma RestIsPlain(arg: string, n: nat, tail: string)
    requires Bare(arg) && arg != "" && (tail == "" || tail[0] == ' ') && n == LeadingSlashes(arg)
    ensures arg[n..] + tail == "" || ((arg[n..] + tail)[0] != '\\' && (arg[n..] + tail)[0] != '"')
  {
    hide IsSpace;
    if n < |arg| { assert (arg[n..] + tail)[0] == arg[n]; } else { assert arg[n..] + tail == tail; }
  }

  lemma OneReadsBack(arg: string, tail: string)
    requires Safe(arg) && (tail == "" || tail[0] == ' ')
    ensures Tokens(Quoted(arg) + tail, IDLE) == Tokens(tail, State(arg, false, true, NeedsQuotes(arg)))
  {
    hide Tokens, IsSpace, QuotedRest;
    if NeedsQuotes(arg) {
      OpeningQuote(arg, tail);
      QuotedReadsBack(arg, 0, tail, State("", true, true, true));
      assert "" + Slashes(0) + arg == arg;
    } else {
      UnquotedIsBare(arg);
      hide NeedsQuotes;
      BareReadsBack(arg, tail, IDLE);
      assert IDLE.current + arg == arg;
    }
  }

  lemma OpeningQuote(arg: string, tail: string)
    requires NeedsQuotes(arg)
    ensures Tokens(Quoted(arg) + tail, IDLE) == Tokens(QuotedRest(arg, 0) + tail, State("", true, true, true))
  {
    hide Tokens, IsSpace, QuotedRest, NeedsQuotes;
    var row := Quoted(arg) + tail;
    assert row[0] == '"' && row[1..] == QuotedRest(arg, 0) + tail;
    StepCharacter(row, IDLE);
  }

  lemma UnquotedIsBare(arg: string)
    requires Safe(arg) && !NeedsQuotes(arg)
    ensures Bare(arg) && arg != "" && Quoted(arg) == arg
  {
    hide IsSpace;
  }

  function Expected(args: seq<string>): seq<Token> {
    if args == [] then [] else [Token(args[0], NeedsQuotes(args[0]))] + Expected(args[1..])
  }

  lemma NoTokens() ensures Tokens("", IDLE) == [] {
  }

  lemma LastToken(st: State)
    requires st.started
    ensures Tokens("", st) == [Token(st.current, st.quoted)]
  {
  }

  /** Tokenizing the joined, quoted arguments gives back exactly the arguments. */
  lemma {:induction false} TokenizeUndoesQuote(args: seq<string>)
    requires forall i :: 0 <= i < |args| ==> Safe(args[i])
    ensures Tokens(Joined(args), IDLE) == Expected(args)
    ensures |Expected(args)| == |args| && forall i :: 0 <= i < |args| ==> Expected(args)[i].value == args[i]
  {
    hide Tokens, Quoted, NeedsQuotes, Safe;
    if args == [] {
      assert Joined(args) == "";
      NoTokens();
    } else {
      TokenizeUndoesQuote(args[1..]);
      var done := State(args[0], false, true, NeedsQuotes(args[0]));
      if |args| == 1 {
        OneReadsBack(args[0], "");
        LastToken(done);
        assert Quoted(args[0]) + "" == Joined(args);
      } else {
        var tail := " " + Joined(args[1..]);
        OneReadsBack(args[0], tail);
        assert Quoted(args[0]) + tail == Joined(args);
        assert tail[1..] == Joined(args[1..]);
        StepCharacter(tail, done);
        assert Tokens(tail, done) == [Token(args[0], done.quoted)] + Tokens(Joined(args[1..]), IDLE);
      }
    }
  }

  predicate NoneHasSpace(ts: seq<Token>) { forall i :: 0 <= i < |ts| ==> !HasSpace(ts[i].value) }

  lemma NoSpaceAppend(a: string, b: string)
    requires !HasSpace(a) && !HasSpace(b)
    ensures !HasSpace(a + b)
  {
    hide IsSpace;
  }

  lemma SlashesHaveNoSpace(n: nat)
    ensures !HasSpace(Slashes(n))
  {
  }

  // Exactly which lists of arguments survive

  /** How many tokens have white space in them. */
  function Spaced(ts: seq<Token>): nat {
    if ts == [] then 0 else (if HasSpace(ts[0].value) then 1 else 0) + Spaced(ts[1..])
  }

  lemma {:induction false} NoneSpaced(ts: seq<Token>)
    requires NoneHasSpace(ts)
    ensures Spaced(ts) == 0
  {
    hide HasSpace;
    if ts != [] { NoneSpaced(ts[1..]); }
  }

  lemma SpacedFirst(t: Token, ts: seq<Token>)
    ensures Spaced([t] + ts) == (if HasSpace(t.value) then 1 else 0) + Spaced(ts)
  {
    hide HasSpace;
    assert ([t] + ts)[1..] == ts;
  }

  /** Between two arguments, or inside one that has no white space so far. */
  predicate Unspaced(st: State) { !st.inQuotes && !HasSpace(st.current) && (!st.started ==> st == IDLE) }

  /** Tokens read off an unquoted argument never have white space: it only adds to the state in front of the rest. */
  lemma {:induction false} UnquotedAddsNone(arg: string, tail: string, st: State) returns (next: State)
    requires Unspaced(st) && (forall i :: 0 <= i < |arg| ==> arg[i] != '"') && (tail == "" || tail[0] == ' ')
    ensures Unspaced(next) && Spaced(Tokens(arg + tail, st)) == Spaced(Tokens(tail, next))
    decreases |arg|
  {
    hide HasSpace, Tokens, Spaced, IsSpace;
    next := st;
    if arg == "" {
      assert arg + tail == tail;
    } else if arg[0] == '\\' {
      var n := LeadingSlashes(arg);
      var rest := arg[n..] + tail;
      SlashesFirst(arg, n);
      SlashesHaveNoSpace(n);
      NoSpaceAppend(st.current, Slashes(n));
      assert arg + tail == Slashes(n) + rest;
      RestAfterSlashes(arg, n, tail);
      StepSlashes(n, rest, st);
      next := UnquotedAddsNone(arg[n..], tail, st.(current := st.current + Slashes(n), started := true));
    } else {
      next := UnquotedCharacter(arg, tail, st);
    }
  }

  lemma {:induction false} UnquotedCharacter(arg: string, tail: string, st: State) returns (next: State)
    requires Unspaced(st) && (forall i :: 0 <= i < |arg| ==> arg[i] != '"') && (tail == "" || tail[0] == ' ')
    requires arg != "" && arg[0] != '\\'
    ensures Unspaced(next) && Spaced(Tokens(arg + tail, st)) == Spaced(Tokens(tail, next))
    decreases |arg|, 0
  {
    OneCharacter(arg[0]);
    hide HasSpace, Tokens, Spaced, IsSpace;
    var row := arg + tail;
    assert row[0] == arg[0] && row[1..] == arg[1..] + tail;
    StepCharacter(row, st);
    if IsSpace(arg[0]) {
      IdleIsUnspaced();
      if st.started { SpacedFirst(Token(st.current, st.quoted), Tokens(row[1..], IDLE)); }
      next := UnquotedAddsNone(arg[1..], tail, IDLE);
    } else {
      NoSpaceAppend(st.current, [arg[0]]);
      next := UnquotedAddsNone(arg[1..], tail, st.(current := st.current + [arg[0]], started := true));
    }
  }

  lemma OneCharacter(c: char)
    ensures HasSpace([c]) <==> IsSpace(c)
  {
    hide IsSpace;
    assert [c][0] == c;
  }

  lemma IdleIsUnspaced() ensures Unspaced(IDLE) {
  }

  lemma RestAfterSlashes(arg: string, n: nat, tail: string)
    requires (forall i :: 0 <= i < |arg| ==> arg[i] != '"') && (tail == "" || tail[0] == ' ') && n == LeadingSlashes(arg)
    ensures arg[n..] + tail == "" || ((arg[n..] + tail)[0] != '\\' && (arg[n..] + tail)[0] != '"')
  {
    if n < |arg| { assert (arg[n..] + tail)[0] == arg[n]; } else { assert arg[n..] + tail == tail; }
  }

  /** After an argument comes the end, or a space that ends its token. */
  lemma SpaceEnds(row: string, st: State)
    requires Unspaced(st)
    ensures Spaced(Tokens("", st)) == 0 && Spaced(Tokens(" " + row, st)) == Spaced(Tokens(row, IDLE))
  {
    hide HasSpace, Spaced;
    var tail := " " + row;
    assert tail[1..] == row && IsSpace(tail[0]);
    hide IsSpace;
    StepCharacter(tail, st);
    SpacedFirst(Token(st.current, st.quoted), Tokens(row, IDLE));
    SpacedFirst(Token(st.current, st.quoted), []);
    assert [Token(st.current, st.quoted)] + [] == [Token(st.current, st.quoted)];
    NoneSpaced([]);
  }

  /** How many arguments have white space and are quoted, and how many have it at all. */
  function QuotedSpaced(args: seq<string>): nat {
    if args == [] then 0 else (if NeedsQuotes(args[0]) && HasSpace(args[0]) then 1 else 0) + QuotedSpaced(args[1..])
  }

  lemma UnquotedHasNoQuote(arg: string)
    requires !NeedsQuotes(arg)
    ensures Quoted(arg) == arg && forall i :: 0 <= i < |arg| ==> arg[i] != '"'
  {
  }

  /** One argument and what follows it. */
  lemma OneAddsItself(arg: string, row: string, last: bool)
    ensures var tail := if last then "" else " " + row;
            Spaced(Tokens(Quoted(arg) + tail, IDLE)) ==
            (if NeedsQuotes(arg) && HasSpace(arg) then 1 else 0) + if last then 0 else Spaced(Tokens(row, IDLE))
  {
    hide Tokens, NeedsQuotes, Quoted, HasSpace, Spaced, IsSpace, Unspaced;
    var tail := if last then "" else " " + row;
    if NeedsQuotes(arg) {
      QuotedIsSafe(arg);
      OneReadsBack(arg, tail);
      TokenThenSpace(arg, row, last);
    } else {
      UnquotedHasNoQuote(arg);
      IdleIsUnspaced();
      var next := UnquotedAddsNone(arg, tail, IDLE);
      SpaceEnds(row, next);
    }
  }

  lemma QuotedIsSafe(arg: string)
    requires NeedsQuotes(arg)
    ensures Safe(arg)
  {
  }

  lemma TokenThenSpace(arg: string, row: string, last: bool)
    requires NeedsQuotes(arg)
    ensures var tail := if last then "" else " " + row;
            Spaced(Tokens(tail, State(arg, false, true, NeedsQuotes(arg)))) ==
            (if HasSpace(arg) then 1 else 0) + if last then 0 else Spaced(Tokens(row, IDLE))
  {
    hide HasSpace, NeedsQuotes, Spaced;
    var st := State(arg, false, true, NeedsQuotes(arg));
    var t := Token(arg, NeedsQuotes(arg));
    NoneSpaced([]);
    SpacedFirst(t, []);
    assert [t] + [] == [t];
    if !last {
      var tail := " " + row;
      assert tail[1..] == row && IsSpace(tail[0]);
      hide IsSpace;
      StepCharacter(tail, st);
      SpacedFirst(t, Tokens(row, IDLE));
    }
  }

  /** Only quoted arguments can give tokens with white space. */
  lemma {:induction false} SpacedTokens(args: seq<string>)
    ensures Spaced(Tokens(Joined(args), IDLE)) == QuotedSpaced(args)
  {
    hide Tokens, NeedsQuotes, Quoted, HasSpace, Spaced;
    if args == [] {
      NoTokens();
      NoneSpaced([]);
    } else {
      var row := Joined(args[1..]);
      OneAddsItself(args[0], row, |args| == 1);
      if |args| == 1 {
        assert Joined(args) == Quoted(args[0]) + "";
        assert args[1..] == [];
      } else {
        assert Joined(args) == Quoted(args[0]) + (" " + row);
        SpacedTokens(args[1..]);
      }
    }
  }

  /** As many arguments have white space as tokens were expected to have it; it is quoted exactly when they agree. */
  lemma {:induction false} ExpectedSpaced(args: seq<string>)
    ensures Spaced(Expected(args)) >= QuotedSpaced(args)
    ensures Spaced(Expected(args)) == QuotedSpaced(args) ==> forall i :: 0 <= i < |args| ==> Safe(args[i])
  {
    hide NeedsQuotes, HasSpace, Spaced;
    if args == [] {
      NoneSpaced([]);
    } else {
      ExpectedSpaced(args[1..]);
      SpacedFirst(Token(args[0], NeedsQuotes(args[0])), Expected(args[1..]));
      if NeedsQuotes(args[0]) { QuotedIsSafe(args[0]); }
      assert args == [args[0]] + args[1..];
    }
  }

  /** A list of arguments survives exactly when all white space in it gets quoted. */
  lemma SurvivesIffSafe(args: seq<string>)
    ensures Tokens(Joined(args), IDLE) == Expected(args) <==> forall i :: 0 <= i < |args| ==> Safe(args[i])
  {
    hide Tokens, Spaced, Safe;
    if forall i :: 0 <= i < |args| ==> Safe(args[i]) {
      TokenizeUndoesQuote(args);
    }
    if Tokens(Joined(args), IDLE) == Expected(args) {
      SpacedTokens(args);
      ExpectedSpaced(args);
    }
  }
}
