/** What is said in a game: every message of the server as a function of the guess frames that it
    has taken, and what the player reads on the screen. */
module Transcript {
  import opened Options
  import opened SecretCode
  import opened GameProtocol

  // ---- The guesses among the frames ----

  /** Four letters from A to F and a null byte. */
  predicate IsGuess(f: seq<char>) {
    |f| >= 5 && (forall i :: 0 <= i < 4 ==> 'A' <= f[i] <= 'F') && f[4] == '\0'
  }

  function Letters(f: seq<char>): seq<char>
    requires |f| >= 4
  {
    [f[0], f[1], f[2], f[3]]
  }

  /** The guesses among the frames, in order. */
  function Guesses(fs: seq<seq<char>>): seq<seq<char>> {
    if fs == [] then []
    else
      var n := |fs| - 1;
      Guesses(fs[..n]) + if IsGuess(fs[n]) then [Letters(fs[n])] else []
  }

  /** The server owes a request: nothing has been asked yet, or the last frame was a guess. */
  predicate AsksAnew(fs: seq<seq<char>>) { fs == [] || IsGuess(fs[|fs| - 1]) }

  function Asking(fs: seq<seq<char>>): seq<Message> { if AsksAnew(fs) then [Plain(Request)] else [] }

  /** The answer to frame `f` after `n` guesses: the score of a guess, or that it is none. */
  function Answer(secret: seq<char>, n: nat, f: seq<char>): Message
    requires |secret| == 4
  {
    if IsGuess(f) then
      CommonBounds(Letters(f), secret);
      Message(Feedback, n + 1, Positions(Letters(f), secret), Common(Letters(f), secret) - Positions(Letters(f), secret))
    else Plain(Invalid)
  }

  /** All that the server says up to its answer to the last of the frames. */
  function Said(secret: seq<char>, fs: seq<seq<char>>): seq<Message>
    requires |secret| == 4
  {
    if fs == [] then []
    else
      var n := |fs| - 1;
      Said(secret, fs[..n]) + Asking(fs[..n]) + [Answer(secret, |Guesses(fs[..n])|, fs[n])]
  }

  function Greetings(pc: ServerPc): seq<Message> {
    seq(if pc.Greet? then pc.sent else 3, _ => Plain(Display))
  }

  /** What comes after the answers: a request that is under way, or the verdict. */
  function Closing(secret: seq<char>, pc: ServerPc, fs: seq<seq<char>>): seq<Message> {
    match pc
    case Await => Asking(fs)
    case Closed => [Plain(if Guesses(fs) != [] && Guesses(fs)[|Guesses(fs)| - 1] == secret then Success else Failure)]
    case _ => []
  }

  /** All that the server has said when it has taken the frames and stands at `pc`. */
  function Script(secret: seq<char>, pc: ServerPc, fs: seq<seq<char>>): seq<Message>
    requires |secret| == 4
  {
    Greetings(pc) + Said(secret, fs) + Closing(secret, pc, fs)
  }

  /** The server, standing at `pc`, has scored the guesses among the frames and has said what
      they call for. */
  ghost predicate ScriptOk(secret: seq<char>, pc: ServerPc, fs: seq<seq<char>>, scored: seq<seq<char>>, sent: seq<Message>) {
    && |secret| == 4
    && (pc.Greet? ==> pc.sent < 3 && fs == [])
    && (pc.Test? || pc.Finish? ==> AsksAnew(fs))
    && scored == Guesses(fs)
    && sent == Script(secret, pc, fs)
  }

  ghost predicate TranscriptOk(g: Game) {
    ScriptOk(g.secret, g.server.pc, g.taken, g.scored, g.sent)
  }

  lemma GuessIsCode(f: seq<char>)
    ensures IsGuess(f) <==> IsCode(f)
    ensures IsGuess(f) ==> CodeOf(f) == Letters(f)
  {
  }

  lemma OneMoreFrame(secret: seq<char>, fs: seq<seq<char>>, f: seq<char>)
    requires |secret| == 4
    ensures Said(secret, fs + [f]) == Said(secret, fs) + Asking(fs) + [Answer(secret, |Guesses(fs)|, f)]
    ensures Guesses(fs + [f]) == Guesses(fs) + if IsGuess(f) then [Letters(f)] else []
    ensures AsksAnew(fs + [f]) <==> IsGuess(f)
  {
    assert (fs + [f])[..|fs|] == fs;
  }

  // ---- How the script goes on ----

  lemma ScriptGreets(secret: seq<char>, k: nat)
    requires |secret| == 4 && k < 3
    ensures Script(secret, Greet(k), []) + [Plain(Display)] == Script(secret, if k + 1 < 3 then Greet(k + 1) else Test, [])
  {
    assert Script(secret, Greet(k), []) == Greetings(Greet(k));
  }

  lemma ScriptAsks(secret: seq<char>, fs: seq<seq<char>>)
    requires |secret| == 4 && AsksAnew(fs)
    ensures Script(secret, Test, fs) + [Plain(Request)] == Script(secret, Await, fs)
    ensures Script(secret, Finish, fs) == Script(secret, Test, fs)
  {
    assert Script(secret, Test, fs) == Greetings(Test) + Said(secret, fs);
  }

  lemma ScriptAnswers(secret: seq<char>, fs: seq<seq<char>>, f: seq<char>)
    requires |secret| == 4
    ensures Script(secret, Await, fs) + [Answer(secret, |Guesses(fs)|, f)]
            == Script(secret, if IsGuess(f) then Test else Await, fs + [f])
  {
    OneMoreFrame(secret, fs, f);
    assert Closing(secret, if IsGuess(f) then Test else Await, fs + [f]) == [];
    Regroup(Greetings(Await), Said(secret, fs), Asking(fs), [Answer(secret, |Guesses(fs)|, f)]);
  }

  lemma Regroup(a: seq<Message>, b: seq<Message>, c: seq<Message>, d: seq<Message>)
    ensures (a + b + c) + d == a + (b + c + d) + []
  {
  }

  lemma ScriptCloses(secret: seq<char>, fs: seq<seq<char>>)
    requires |secret| == 4
    ensures Script(secret, Finish, fs) + Closing(secret, Closed, fs) == Script(secret, Closed, fs)
  {
    assert Script(secret, Finish, fs) == Greetings(Closed) + Said(secret, fs);
  }

  // ---- The server follows the script ----

  lemma ScoredTranscript(g: Game)
    requires TranscriptOk(g) && g.server.guesses == |g.scored|
    requires g.server.pc.Await? && g.up != [] && IsCode(g.up[0])
    ensures TranscriptOk(Scored(g))
  {
    var f := g.up[0];
    GuessIsCode(f);
    OneMoreFrame(g.secret, g.taken, f);
    ScriptAnswers(g.secret, g.taken, f);
    assert FeedbackOn(g.secret, CodeOf(f), g.server.guesses) == Answer(g.secret, |Guesses(g.taken)|, f);
  }

  lemma RejectedTranscript(g: Game)
    requires TranscriptOk(g) && g.server.pc.Await? && g.up != [] && !IsCode(g.up[0])
    ensures TranscriptOk(Rejected(g))
  {
    var f := g.up[0];
    GuessIsCode(f);
    OneMoreFrame(g.secret, g.taken, f);
    ScriptAnswers(g.secret, g.taken, f);
  }

  lemma FinishTranscript(g: Game)
    requires TranscriptOk(g) && g.server.pc.Finish? && ScoresOk(g.secret, g.server, g.scored)
    ensures TranscriptOk(Sent(g, Plain(if g.server.positions == LENGTH then Success else Failure), Closed))
  {
    FinishVerdict(g.secret, g.server, g.scored);
    ScriptCloses(g.secret, g.taken);
  }

  lemma FinishVerdict(secret: seq<char>, sv: Server, scored: seq<seq<char>>)
    requires |secret| == 4 && ScoresOk(secret, sv, scored) && sv.pc.Finish?
    ensures sv.positions == LENGTH <==> scored != [] && scored[|scored| - 1] == secret
  {
    LoopVerdict(secret, sv.(pc := Closed), scored);
  }

  lemma ServerTranscript(g: Game)
    requires TranscriptOk(g) && ScoresOk(g.secret, g.server, g.scored) && ServerStep(g).Some?
    ensures TranscriptOk(ServerStep(g).value)
  {
    if g.server.pc.Await? {
      if IsCode(g.up[0]) { ScoredTranscript(g); } else { RejectedTranscript(g); }
    } else if g.server.pc.Finish? {
      FinishTranscript(g);
    } else if g.server.pc.Greet? {
      ScriptGreets(g.secret, g.server.pc.sent);
    } else {
      ScriptAsks(g.secret, g.taken);
    }
  }

  lemma TakenKeeps(g: Game, k: Option<Kind>, line: string, f: seq<char>)
    requires g.down != []
    ensures var r := Taken(g, k, line, f);
            r.secret == g.secret && r.server == g.server && r.taken == g.taken && r.scored == g.scored && r.sent == g.sent
  {
  }

  lemma ClientTranscript(g: Game, f: seq<char>)
    requires TranscriptOk(g) && ClientStep(g, f).Some?
    ensures TranscriptOk(ClientStep(g, f).value)
  {
    TakenKeeps(g, KindOf(Wire(g.down[0])), Printed(Wire(g.down[0])), f);
  }

  lemma ChosenTranscript(g: Game, c: Choice)
    requires Inv(g) && TranscriptOk(g)
    ensures TranscriptOk(Chosen(g, c))
  {
    match c
    case ServerMoves =>
      if ServerStep(g).Some? { ServerTranscript(g); }
    case ClientMoves(f) =>
      if ClientStep(g, f).Some? { ClientTranscript(g, f); }
  }

  // ---- The frames are those of the player ----

  /** The frames with which the player answers in a run: one for every prompt that reaches the
      client, the one chosen when it does. */
  function Given(secret: seq<char>, choices: seq<Choice>): seq<seq<char>>
    requires |secret| == 4
  {
    if choices == [] then []
    else
      var n := |choices| - 1;
      var g, c := After(secret, choices[..n]), choices[n];
      Given(secret, choices[..n])
      + if c.ClientMoves? && !g.ended && g.down != [] && IsPrompt(g.down[0]) then [c.frame] else []
  }

  lemma ChosenGives(g: Game, c: Choice)
    requires Inv(g)
    ensures Chosen(g, c).given
            == g.given + if c.ClientMoves? && !g.ended && g.down != [] && IsPrompt(g.down[0]) then [c.frame] else []
  {
    if c.ClientMoves? && !g.ended && g.down != [] { ClientKind(g); }
  }

  lemma {:induction false} RunTranscript(secret: seq<char>, choices: seq<Choice>)
    requires |secret| == 4
    ensures TranscriptOk(After(secret, choices))
    decreases |choices|
  {
    if choices != [] {
      var prior := choices[..|choices| - 1];
      RunTranscript(secret, prior);
      RunInv(secret, prior);
      ChosenTranscript(After(secret, prior), choices[|choices| - 1]);
    }
  }

  lemma {:induction false} RunGives(secret: seq<char>, choices: seq<Choice>)
    requires |secret| == 4
    ensures After(secret, choices).given == Given(secret, choices)
    decreases |choices|
  {
    if choices != [] {
      var prior := choices[..|choices| - 1];
      RunGives(secret, prior);
      RunInv(secret, prior);
      ChosenGives(After(secret, prior), choices[|choices| - 1]);
    }
  }

  /** In every run the server has taken the player's frames in order, but for one on its way; it
      has scored exactly the guesses among them, as they were made; and all that it has said is
      what they call for: the greetings, a request for each guess, an answer to each frame, its
      score if it is a guess and INVALID if not, and at the end the verdict. */
  lemma ServerIsRight(secret: seq<char>, choices: seq<Choice>)
    requires |secret| == 4
    ensures var g := After(secret, choices);
            && Given(secret, choices) == g.taken + g.up && |g.up| <= 1
            && g.scored == Guesses(g.taken)
            && g.sent == Script(secret, g.server.pc, g.taken)
  {
    RunTranscript(secret, choices);
    RunGives(secret, choices);
    GameIsFair(secret, choices);
  }

  /** The rejections among what is said are the frames that are no guesses. */
  lemma {:induction false} SaidRejections(secret: seq<char>, fs: seq<seq<char>>)
    requires |secret| == 4
    ensures Rejections(Said(secret, fs)) == |fs| - |Guesses(fs)|
    decreases |fs|
  {
    if fs != [] {
      var n := |fs| - 1;
      SaidRejections(secret, fs[..n]);
      var prior, m := Said(secret, fs[..n]), Answer(secret, |Guesses(fs[..n])|, fs[n]);
      if AsksAnew(fs[..n]) { RejectionsAppend(prior, Plain(Request)); } else { assert prior + [] == prior; }
      RejectionsAppend(prior + Asking(fs[..n]), m);
    }
  }

  lemma {:induction false} RejectionsConcat(a: seq<Message>, b: seq<Message>)
    ensures Rejections(a + b) == Rejections(a) + Rejections(b)
    decreases |b|
  {
    if b == [] {
      assert a + b == a;
    } else {
      var n := |b| - 1;
      RejectionsConcat(a, b[..n]);
      assert (a + b)[..|a| + n] == a + b[..n] && (a + b)[|a| + n] == b[n];
    }
  }

  lemma {:induction false} NoRejections(ms: seq<Message>)
    requires forall i :: 0 <= i < |ms| ==> !ms[i].kind.Invalid?
    ensures Rejections(ms) == 0
    decreases |ms|
  {
    if ms != [] { NoRejections(ms[..|ms| - 1]); }
  }

  lemma ScriptRejections(secret: seq<char>, pc: ServerPc, fs: seq<seq<char>>)
    requires |secret| == 4
    ensures Rejections(Script(secret, pc, fs)) == |fs| - |Guesses(fs)|
  {
    RejectionsConcat(Greetings(pc) + Said(secret, fs), Closing(secret, pc, fs));
    RejectionsConcat(Greetings(pc), Said(secret, fs));
    NoRejections(Greetings(pc));
    NoRejections(Closing(secret, pc, fs));
    SaidRejections(secret, fs);
  }

  /** In every run exactly the frames that are no guesses have been rejected, and the moves are
      bounded by their number: a game ends unless the player goes on with such frames for ever. */
  lemma OnlyBadFramesProlong(secret: seq<char>, choices: seq<Choice>)
    requires |secret| == 4
    ensures var g := After(secret, choices);
            && Rejections(g.sent) == |g.taken| - |Guesses(g.taken)|
            && Moves(secret, choices) <= 49 + 2 * (|g.taken| - |Guesses(g.taken)|)
  {
    var g := After(secret, choices);
    RunTranscript(secret, choices);
    ScriptRejections(secret, g.server.pc, g.taken);
    GameEnds(secret, choices);
  }

  // ---- What the player reads ----

  predicate IsDigit(c: char) { '0' <= c <= '9' }

  function Digit(c: char): nat
    requires IsDigit(c)
  {
    c as int - '0' as int
  }

  /** The number that a string of digits stands for. */
  function Value(s: string): nat
    requires forall i :: 0 <= i < |s| ==> IsDigit(s[i])
  {
    if s == [] then 0 else 10 * Value(s[..|s| - 1]) + Digit(s[|s| - 1])
  }

  /** The length of the digits at the front of `s`. */
  function DigitRun(s: string): (n: nat)
    ensures n <= |s| && (forall i :: 0 <= i < n ==> IsDigit(s[i])) && (n < |s| ==> !IsDigit(s[n]))
  {
    if s == [] || !IsDigit(s[0]) then 0 else 1 + DigitRun(s[1..])
  }

  /** A name and a number at the front of `s`: the number, and what follows it. */
  function ReadField(name: string, s: string): Option<(nat, string)> {
    if !(name <= s) then None
    else
      var t := s[|name|..];
      var n := DigitRun(t);
      if n == 0 then None else Some((Value(t[..n]), t[n..]))
  }

  /** Three fields and an end. */
  function ReadThree(x: string, y: string, z: string, end: string, s: string): Option<(nat, nat, nat)> {
    var a := ReadField(x, s);
    if a.None? then None
    else
      var b := ReadField(y, a.value.1);
      if b.None? then None
      else
        var c := ReadField(z, b.value.1);
        if c.None? || c.value.1 != end then None else Some((a.value.0, b.value.0, c.value.0))
  }

  /** The three numbers of a line of feedback. */
  function ReadFeedback(s: string): Option<(nat, nat, nat)> {
    ReadThree("Guess: ", ", Correct positions: ", ", Correct colours: ", ".\n", s)
  }

  lemma {:induction false} DecimalValue(n: nat)
    ensures Decimal(n) != [] && (forall i :: 0 <= i < |Decimal(n)| ==> IsDigit(Decimal(n)[i]))
    ensures Value(Decimal(n)) == n
    decreases n
  {
    if n < 10 {
      DigitValue(n);
      assert Decimal(n)[..0] == [];
    } else {
      DecimalValue(n / 10);
      DigitValue(n % 10);
      var s := Decimal(n / 10);
      assert Decimal(n)[..|s|] == s;
    }
  }

  lemma DigitValue(n: nat)
    requires n < 10
    ensures IsDigit("0123456789"[n]) && Digit("0123456789"[n]) == n
  {
  }

  lemma DigitRunIs(s: string, n: nat)
    requires n <= |s| && (forall i :: 0 <= i < n ==> IsDigit(s[i])) && (n < |s| ==> !IsDigit(s[n]))
    ensures DigitRun(s) == n
  {
  }

  lemma FieldRoundTrip(name: string, n: nat, rest: string)
    requires rest != [] && !IsDigit(rest[0])
    ensures ReadField(name, name + (Decimal(n) + rest)) == Some((n, rest))
  {
    DecimalValue(n);
    var t := Decimal(n) + rest;
    assert (name + t)[|name|..] == t;
    DigitRunIs(t, |Decimal(n)|);
    assert t[..|Decimal(n)|] == Decimal(n) && t[|Decimal(n)|..] == rest;
  }

  lemma Assoc(p: string, q: string, r: string)
    ensures (p + q) + r == p + (q + r)
  {
  }

  lemma Nested(x: string, a: string, y: string, b: string, z: string, c: string, end: string)
    ensures x + a + y + b + z + c + end == x + (a + (y + (b + (z + (c + end)))))
  {
    Assoc(x + a + y + b + z, c, end);
    Assoc(x + a + y + b, z, c + end);
    Assoc(x + a + y, b, z + (c + end));
    Assoc(x + a, y, b + (z + (c + end)));
    Assoc(x, a, y + (b + (z + (c + end))));
  }

  lemma ThreeRoundTrip(x: string, y: string, z: string, end: string, a: nat, b: nat, c: nat)
    requires y != [] && !IsDigit(y[0]) && z != [] && !IsDigit(z[0]) && end != [] && !IsDigit(end[0])
    ensures ReadThree(x, y, z, end, x + (Decimal(a) + (y + (Decimal(b) + (z + (Decimal(c) + end)))))) == Some((a, b, c))
  {
    var third := z + (Decimal(c) + end);
    FieldRoundTrip(z, c, end);
    assert third[0] == z[0];
    var second := y + (Decimal(b) + third);
    FieldRoundTrip(y, b, third);
    assert second[0] == y[0];
    FieldRoundTrip(x, a, second);
  }

  /** The text of a feedback can be read back, whatever its numbers. */
  lemma FeedbackRoundTrip(m: Message)
    requires m.kind.Feedback?
    ensures ReadFeedback(TextOf(m)) == Some((m.number, m.positions, m.colours))
  {
    var x, y, z, end := "Guess: ", ", Correct positions: ", ", Correct colours: ", ".\n";
    ThreeRoundTrip(x, y, z, end, m.number, m.positions, m.colours);
    Nested(x, Decimal(m.number), y, Decimal(m.positions), z, Decimal(m.colours), end);
  }

  /** What the client prints of a message. */
  ghost predicate ReadsAs(line: string, m: Message) {
    match m.kind
    case Display => line == TextOf(m)
    case Request => line == "> "
    case Invalid => line == "Invalid guess.\n> "
    case Feedback => ReadFeedback(line) == Some((m.number, m.positions, m.colours))
    case Success => line == "You win! =)\n"
    case Failure => line == "You lose. Better luck next time.\n"
    case Full => line == "Server is full. Try connecting later.\n"
  }

  lemma PrintedReads(m: Message)
    requires IsSmall(m)
    ensures ReadsAs(Printed(Wire(m)), m)
  {
    WireRoundTrip(m);
    if m.kind.Feedback? { FeedbackRoundTrip(m); }
  }

  ghost predicate ScreenOk(g: Game) {
    |g.shown| == |g.got| && forall k :: 0 <= k < |g.got| ==> ReadsAs(g.shown[k], g.got[k])
  }

  lemma ChosenScreen(g: Game, c: Choice)
    requires Inv(g) && ScreenOk(g)
    ensures ScreenOk(Chosen(g, c))
  {
    if c.ClientMoves? && !g.ended && g.down != [] {
      assert g.down[0] == g.sent[|g.got|];
      PrintedReads(g.down[0]);
      TakenScreen(g, KindOf(Wire(g.down[0])), Printed(Wire(g.down[0])), c.frame);
    }
  }

  lemma TakenScreen(g: Game, k: Option<Kind>, line: string, f: seq<char>)
    requires g.down != [] && ScreenOk(g) && ReadsAs(line, g.down[0])
    ensures ScreenOk(Taken(g, k, line, f))
  {
  }

  /** In every run the player reads, line by line, what the server has said. */
  lemma {:induction false} ScreenIsRight(secret: seq<char>, choices: seq<Choice>)
    requires |secret| == 4
    ensures ScreenOk(After(secret, choices))
    decreases |choices|
  {
    if choices != [] {
      var prior := choices[..|choices| - 1];
      ScreenIsRight(secret, prior);
      RunInv(secret, prior);
      ChosenScreen(After(secret, prior), choices[|choices| - 1]);
    }
  }

  /** The lines that show a score. */
  function ScoreLines(ms: seq<Message>, lines: seq<string>): seq<string>
    requires |ms| == |lines|
  {
    if ms == [] then []
    else
      var n := |ms| - 1;
      ScoreLines(ms[..n], lines[..n]) + if ms[n].kind.Feedback? then [lines[n]] else []
  }

  lemma {:induction false} ScoreLinesCount(ms: seq<Message>, lines: seq<string>)
    requires |ms| == |lines|
    ensures |ScoreLines(ms, lines)| == |Feedbacks(ms)|
    decreases |ms|
  {
    if ms != [] { ScoreLinesCount(ms[..|ms| - 1], lines[..|ms| - 1]); }
  }

  /** The place on the screen of score line `i`. */
  lemma {:induction false} ScoreLineAt(ms: seq<Message>, lines: seq<string>, i: nat) returns (k: nat)
    requires |ms| == |lines| && i < |Feedbacks(ms)| == |ScoreLines(ms, lines)|
    ensures k < |ms| && ms[k].kind.Feedback? && ms[k] == Feedbacks(ms)[i] && lines[k] == ScoreLines(ms, lines)[i]
    decreases |ms|
  {
    var n := |ms| - 1;
    ScoreLinesCount(ms[..n], lines[..n]);
    if i < |Feedbacks(ms[..n])| {
      k := ScoreLineAt(ms[..n], lines[..n], i);
    } else {
      k := n;
    }
  }

  lemma {:induction false} FeedbacksConcat(a: seq<Message>, b: seq<Message>)
    ensures Feedbacks(a + b) == Feedbacks(a) + Feedbacks(b)
    decreases |b|
  {
    if b == [] {
      assert a + b == a;
    } else {
      var n := |b| - 1;
      FeedbacksConcat(a, b[..n]);
      assert (a + b)[..|a| + n] == a + b[..n] && (a + b)[|a| + n] == b[n];
    }
  }

  /** The line reads as the number of the guess, its places and its colours. */
  ghost predicate ShowsScore(secret: seq<char>, code: seq<char>, i: nat, line: string)
    requires |code| == |secret|
  {
    var p, c := Positions(code, secret), Common(code, secret);
    p <= c && ReadFeedback(line) == Some((i + 1, p, c - p))
  }

  /** The score lines show the scores of the first codes, in order. */
  ghost predicate ShowsScores(secret: seq<char>, scored: seq<seq<char>>, lines: seq<string>) {
    && |lines| <= |scored|
    && forall i :: 0 <= i < |lines| ==>
         |scored[i]| == |secret| && ShowsScore(secret, scored[i], i, lines[i])
  }

  lemma FeedbackNumbers(secret: seq<char>, code: seq<char>, i: nat)
    requires |code| == |secret|
    ensures var m, p, c := FeedbackOn(secret, code, i), Positions(code, secret), Common(code, secret);
            p <= c && (m.number, m.positions, m.colours) == (i + 1, p, c - p)
  {
    CommonBounds(code, secret);
  }

  lemma ScoresShown(secret: seq<char>, scored: seq<seq<char>>, got: seq<Message>, down: seq<Message>, shown: seq<string>)
    requires |shown| == |got| && (forall k :: 0 <= k < |got| ==> ReadsAs(shown[k], got[k]))
    requires FeedbackOk(secret, scored, got + down)
    ensures ShowsScores(secret, scored, ScoreLines(got, shown))
    ensures |ScoreLines(got, shown)| + |Feedbacks(down)| == |scored|
  {
    ScoreLinesCount(got, shown);
    FeedbacksConcat(got, down);
    var lines := ScoreLines(got, shown);
    forall i | 0 <= i < |lines| ensures |scored[i]| == |secret| && ShowsScore(secret, scored[i], i, lines[i]) {
      assert Feedbacks(got)[i] == Feedbacks(got + down)[i] == FeedbackOn(secret, scored[i], i);
      FeedbackNumbers(secret, scored[i], i);
      var k := ScoreLineAt(got, shown, i);
      assert ReadsAs(shown[k], got[k]);
    }
  }

  /** In every run the score lines on the screen read, in order, as the number of the guess, its
      places and its colours; all are there once the client has received everything. */
  lemma ScoresAreShown(secret: seq<char>, choices: seq<Choice>)
    requires |secret| == 4
    ensures var g := After(secret, choices);
            && |g.shown| == |g.got|
            && ShowsScores(secret, g.scored, ScoreLines(g.got, g.shown))
            && (g.down == [] ==> |ScoreLines(g.got, g.shown)| == |g.scored|)
  {
    var g := After(secret, choices);
    ScreenIsRight(secret, choices);
    GameIsFair(secret, choices);
    ScoresShown(secret, g.scored, g.got, g.down, g.shown);
  }

  lemma ScriptEnds(secret: seq<char>, fs: seq<seq<char>>)
    requires |secret| == 4
    ensures var s := Script(secret, Closed, fs);
            s != [] && s[|s| - 1] == Closing(secret, Closed, fs)[0]
  {
  }

  /** The player has won. */
  predicate Won(secret: seq<char>, scored: seq<seq<char>>) { scored != [] && scored[|scored| - 1] == secret }

  lemma VerdictLine(line: string, m: Message, won: bool)
    requires ReadsAs(line, m) && m == Plain(if won then Success else Failure)
    ensures line == if won then "You win! =)\n" else "You lose. Better luck next time.\n"
  {
  }

  lemma ScriptVerdict(secret: seq<char>, fs: seq<seq<char>>, scored: seq<seq<char>>, sent: seq<Message>)
    requires ScriptOk(secret, Closed, fs, scored, sent)
    ensures sent != [] && sent[|sent| - 1] == Plain(if Won(secret, scored) then Success else Failure)
  {
    ScriptEnds(secret, fs);
  }

  /** A client that has ended has received everything. */
  lemma AllReceived(g: Game)
    requires EndOk(g) && DeliveryOk(g) && g.ended
    ensures g.server.pc.Closed? && g.got == g.sent
  {
    assert g.got + [] == g.got;
  }

  /** The last line says that the player has won if the last guess was the secret, and otherwise
      that the player has lost. */
  ghost predicate ShowsVerdict(g: Game) {
    && g.shown != []
    && g.shown[|g.shown| - 1] == if Won(g.secret, g.scored) then "You win! =)\n" else "You lose. Better luck next time.\n"
  }

  lemma EndedShowsVerdict(g: Game)
    requires Inv(g) && TranscriptOk(g) && ScreenOk(g) && g.ended
    ensures ShowsVerdict(g)
  {
    AllReceived(g);
    ScriptVerdict(g.secret, g.taken, g.scored, g.sent);
    var n := |g.got| - 1;
    VerdictLine(g.shown[n], g.got[n], Won(g.secret, g.scored));
  }

  /** When the client has ended, its last line is the right verdict. */
  lemma VerdictIsShown(secret: seq<char>, choices: seq<Choice>)
    requires |secret| == 4 && After(secret, choices).ended
    ensures ShowsVerdict(After(secret, choices))
  {
    RunInv(secret, choices);
    RunTranscript(secret, choices);
    ScreenIsRight(secret, choices);
    EndedShowsVerdict(After(secret, choices));
  }
}
