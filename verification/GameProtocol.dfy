/** The guessing game between one client and the server (project2/server.c and
    project2/client.c): frames, the two loops as step machines, and their composition over two
    reliable channels. */
module GameProtocol {
  import opened Options
  import opened SecretCode

  const FRAME_SIZE := 192
  const HEADER_SIZE := 7
  const MAX_GUESSES := 10
  const GREETINGS := 3

  // ---- Frames ----

  datatype Kind = Display | Request | Invalid | Feedback | Success | Failure | Full

  /** A message of the server; the numbers are those of a feedback. */
  datatype Message = Message(kind: Kind, number: nat, positions: nat, colours: nat)

  function Plain(k: Kind): Message { Message(k, 0, 0, 0) }

  function Header(k: Kind): (h: string)
    ensures |h| == HEADER_SIZE
  {
    match k
    case Display => "DISPMSG"
    case Request => "REQUEST"
    case Invalid => "INVALID"
    case Feedback => "FEEDBAC"
    case Success => "SUCCESS"
    case Failure => "FAILURE"
    case Full => "SERVFUL"
  }

  function Decimal(n: nat): string {
    if n < 10 then ["0123456789"[n]] else Decimal(n / 10) + ["0123456789"[n % 10]]
  }

  /** The text that goes out with a feedback. */
  function TextOf(m: Message): string {
    if m.kind.Feedback? then
      "Guess: " + Decimal(m.number) + ", Correct positions: " + Decimal(m.positions)
      + ", Correct colours: " + Decimal(m.colours) + ".\n"
    else ""
  }

  predicate IsSmall(m: Message) { m.number < 100 && m.positions < 100 && m.colours < 100 }

  /** Only these messages have a text. */
  predicate HasText(k: Kind) { k.Display? || k.Feedback? }

  /** send_gp_message: header, text if the kind has one, and null bytes up to the size of a frame. */
  function Composed(k: Kind, payload: string): (f: seq<char>)
    ensures |f| >= HEADER_SIZE
  {
    var body := Header(k) + if HasText(k) then payload else "";
    body + if |body| < FRAME_SIZE then seq(FRAME_SIZE - |body|, _ => NUL) else []
  }

  function Wire(m: Message): (f: seq<char>)
    ensures |f| >= HEADER_SIZE
  {
    Composed(m.kind, TextOf(m))
  }

  /** The client's tests of a frame's header, in order. */
  function KindOf(f: seq<char>): Option<Kind>
    requires |f| >= HEADER_SIZE
  {
    var h := f[..HEADER_SIZE];
    if h == Header(Display) then Some(Display)
    else if h == Header(Request) then Some(Request)
    else if h == Header(Invalid) then Some(Invalid)
    else if h == Header(Feedback) then Some(Feedback)
    else if h == Header(Success) then Some(Success)
    else if h == Header(Failure) then Some(Failure)
    else if h == Header(Full) then Some(Full)
    else None
  }

  /** The characters before the first null byte. */
  function Text(s: seq<char>): string {
    if s == [] || s[0] == NUL then "" else [s[0]] + Text(s[1..])
  }

  lemma HeadersDiffer(j: Kind, k: Kind)
    requires j != k
    ensures Header(j) != Header(k)
  {
    assert Header(j)[0] != Header(k)[0] || Header(j)[1] != Header(k)[1];
  }

  lemma {:induction false} TextBeforeNul(s: string, r: seq<char>)
    requires NUL !in s && (r == [] || r[0] == NUL)
    ensures Text(s + r) == s
    decreases |s|
  {
    if s == [] {
      assert s + r == r;
    } else {
      assert (s + r)[1..] == s[1..] + r;
      TextBeforeNul(s[1..], r);
    }
  }

  lemma DecimalShort(n: nat)
    requires n < 100
    ensures |Decimal(n)| <= 2 && NUL !in Decimal(n)
  {
    if n >= 10 { assert n / 10 < 10; }
  }

  lemma TextFits(m: Message)
    requires IsSmall(m)
    ensures |TextOf(m)| < FRAME_SIZE - HEADER_SIZE && NUL !in TextOf(m)
  {
    DecimalShort(m.number);
    DecimalShort(m.positions);
    DecimalShort(m.colours);
  }

  lemma KindOfHeader(k: Kind, f: seq<char>)
    requires |f| >= HEADER_SIZE && f[..HEADER_SIZE] == Header(k)
    ensures KindOf(f) == Some(k)
  {
    forall j | j != k ensures Header(j) != Header(k) {
      HeadersDiffer(j, k);
    }
  }

  /** Every text that leaves room for a null byte reaches the client whole, and every frame
      is taken for what it is. */
  lemma FrameRoundTrip(k: Kind, payload: string)
    requires HEADER_SIZE + |payload| < FRAME_SIZE && NUL !in payload
    ensures var f := Composed(k, payload);
            && |f| == 192 && KindOf(f) == Some(k)
            && Text(f[7..]) == if HasText(k) then payload else ""
  {
    var f := Composed(k, payload);
    var text := if HasText(k) then payload else "";
    var pad := seq(FRAME_SIZE - HEADER_SIZE - |text|, _ => NUL);
    assert f[..HEADER_SIZE] == Header(k);
    assert f[HEADER_SIZE..] == text + pad;
    KindOfHeader(k, f);
    TextBeforeNul(text, pad);
  }

  /** A frame sent by the server is taken by the client for what it is, text included. */
  lemma WireRoundTrip(m: Message)
    requires IsSmall(m)
    ensures |Wire(m)| == 192 && KindOf(Wire(m)) == Some(m.kind)
    ensures Text(Wire(m)[HEADER_SIZE..]) == TextOf(m)
  {
    TextFits(m);
    FrameRoundTrip(m.kind, TextOf(m));
  }

  // ---- The two parties ----

  datatype ServerPc = Greet(sent: nat) | Test | Await | Finish | Closed

  datatype Server = Server(pc: ServerPc, guesses: nat, positions: nat)

  /** The server, the client, the channels between them, and what has happened so far: the
      messages sent and received, what the client has shown, the guess frames that it has given
      and that the server has taken, and the codes scored. */
  datatype Game = Game(secret: seq<char>, server: Server, ended: bool, down: seq<Message>, up: seq<seq<char>>,
                       sent: seq<Message>, got: seq<Message>, shown: seq<string>,
                       given: seq<seq<char>>, taken: seq<seq<char>>, scored: seq<seq<char>>)

  /** The feedback on the scored code with index `i`. */
  function FeedbackOn(secret: seq<char>, code: seq<char>, i: nat): Message
    requires |code| == |secret|
  {
    CommonBounds(code, secret);
    Message(Feedback, i + 1, Positions(code, secret), Common(code, secret) - Positions(code, secret))
  }

  function Start(secret: seq<char>): Game {
    Game(secret, Server(Greet(0), 0, 0), false, [], [], [], [], [], [], [], [])
  }

  function Sent(g: Game, m: Message, pc: ServerPc): Game {
    g.(down := g.down + [m], sent := g.sent + [m], server := g.server.(pc := pc))
  }

  /** The code in a guess frame. */
  function CodeOf(f: seq<char>): seq<char>
    requires IsCode(f)
  {
    f[..LENGTH]
  }

  /** The first guess frame in the channel is a code: score it and answer with the feedback. */
  function Scored(g: Game): Game
    requires |g.secret| == LENGTH && g.up != [] && IsCode(g.up[0])
  {
    var code := CodeOf(g.up[0]);
    var r := Sent(g, FeedbackOn(g.secret, code, g.server.guesses), Test);
    r.(up := g.up[1..], taken := g.taken + [g.up[0]], scored := g.scored + [code],
       server := Server(Test, g.server.guesses + 1, Positions(code, g.secret)))
  }

  /** It is no code: say so and wait for another. */
  function Rejected(g: Game): Game
    requires g.up != []
  {
    Sent(g, Plain(Invalid), Await).(up := g.up[1..], taken := g.taken + [g.up[0]])
  }

  /** The server's next action, if it has one. */
  function ServerStep(g: Game): Option<Game>
    requires |g.secret| == LENGTH
  {
    match g.server.pc
    case Greet(k) => Some(Sent(g, Plain(Display), if k + 1 < GREETINGS then Greet(k + 1) else Test))
    case Test =>
      if g.server.guesses < MAX_GUESSES && g.server.positions < LENGTH then Some(Sent(g, Plain(Request), Await))
      else Some(g.(server := g.server.(pc := Finish)))
    case Await => if g.up == [] then None else Some(if IsCode(g.up[0]) then Scored(g) else Rejected(g))
    case Finish => Some(Sent(g, Plain(if g.server.positions == LENGTH then Success else Failure), Closed))
    case Closed => None
  }

  /** What the client prints when it has received frame `f`. */
  function Printed(f: seq<char>): string
    requires |f| >= HEADER_SIZE
  {
    match KindOf(f)
    case Some(Display) => Text(f[HEADER_SIZE..])
    case Some(Request) => "> "
    case Some(Invalid) => "Invalid guess.\n> "
    case Some(Feedback) => Text(f[HEADER_SIZE..])
    case Some(Success) => "You win! =)\n"
    case Some(Failure) => "You lose. Better luck next time.\n"
    case Some(Full) => "Server is full. Try connecting later.\n"
    case None => ""
  }

  /** The client has taken the next frame, found it to be of kind `k` and printed `line`; when
      asked for a guess it answers with frame `f`. */
  function Taken(g: Game, k: Option<Kind>, line: string, f: seq<char>): Game
    requires g.down != []
  {
    var r := g.(down := g.down[1..], got := g.got + [g.down[0]], shown := g.shown + [line]);
    match k
    case Some(Request) => r.(up := r.up + [f], given := r.given + [f])
    case Some(Invalid) => r.(up := r.up + [f], given := r.given + [f])
    case Some(Success) => r.(ended := true)
    case Some(Failure) => r.(ended := true)
    case Some(Full) => r.(ended := true)
    case _ => r
  }

  /** The client's next action, if it has one. */
  function ClientStep(g: Game, f: seq<char>): Option<Game> {
    if g.ended || g.down == [] then None
    else Some(Taken(g, KindOf(Wire(g.down[0])), Printed(Wire(g.down[0])), f))
  }

  datatype Choice = ServerMoves | ClientMoves(frame: seq<char>)

  function Chosen(g: Game, c: Choice): Game
    requires |g.secret| == LENGTH
  {
    var r := match c case ServerMoves => ServerStep(g) case ClientMoves(f) => ClientStep(g, f);
    if r.Some? then r.value else g
  }

  /** The game after a series of moves, for any answers of the player. */
  function After(secret: seq<char>, choices: seq<Choice>): (g: Game)
    requires |secret| == LENGTH
    ensures g.secret == secret
  {
    if choices == [] then Start(secret)
    else Chosen(After(secret, choices[..|choices| - 1]), choices[|choices| - 1])
  }

  // ---- The invariant ----

  predicate IsPrompt(m: Message) { m.kind.Request? || m.kind.Invalid? }

  predicate IsEnd(m: Message) { m.kind.Success? || m.kind.Failure? || m.kind.Full? }

  function Prompts(ms: seq<Message>): nat {
    if ms == [] then 0 else (if IsPrompt(ms[0]) then 1 else 0) + Prompts(ms[1..])
  }

  /** The feedback messages among `ms`, in order. */
  function Feedbacks(ms: seq<Message>): seq<Message> {
    if ms == [] then []
    else Feedbacks(ms[..|ms| - 1]) + if ms[|ms| - 1].kind.Feedback? then [ms[|ms| - 1]] else []
  }

  lemma {:induction false} PromptsConcat(a: seq<Message>, b: seq<Message>)
    ensures Prompts(a + b) == Prompts(a) + Prompts(b)
    decreases |a|
  {
    if a == [] {
      assert a + b == b;
    } else {
      assert (a + b)[1..] == a[1..] + b;
      PromptsConcat(a[1..], b);
    }
  }

  /** All codes scored but the last differ from the secret; the server's counters agree with
      them, and its place in the loop with the counters. */
  ghost predicate ScoresOk(secret: seq<char>, sv: Server, scored: seq<seq<char>>) {
    var n := |scored|;
    && sv.guesses == n <= MAX_GUESSES
    && (forall i :: 0 <= i < n ==> |scored[i]| == |secret|)
    && (forall i :: 0 <= i < n - 1 ==> scored[i] != secret)
    && (n == 0 ==> sv.positions == 0)
    && (n > 0 ==> sv.positions == Positions(scored[n - 1], secret))
    && (sv.pc.Greet? ==> n == 0)
    && (sv.pc.Await? ==> n < MAX_GUESSES && sv.positions < LENGTH)
    && (sv.pc.Finish? || sv.pc.Closed? ==> n == MAX_GUESSES || sv.positions >= LENGTH)
  }

  /** Nothing is lost on the way down, and the client has answered what it was asked. */
  ghost predicate DeliveryOk(g: Game) {
    && g.sent == g.got + g.down
    && (forall i :: 0 <= i < |g.sent| ==> IsSmall(g.sent[i]))
    && |g.given| == Prompts(g.got) && g.given == g.taken + g.up
  }

  /** One guess is due while the server waits for one, and none at other times. */
  ghost predicate DueOk(g: Game) {
    Prompts(g.down) + |g.up| == if g.server.pc.Await? then 1 else 0
  }

  /** The final message is the last one sent, is sent when the server closes, and ends the client. */
  ghost predicate EndOk(g: Game) {
    && (forall i :: 0 <= i < |g.sent| ==> (IsEnd(g.sent[i]) <==> g.server.pc.Closed? && i == |g.sent| - 1))
    && (g.server.pc.Closed? ==>
          g.sent != [] && g.sent[|g.sent| - 1].kind == if g.server.positions == LENGTH then Success else Failure)
    && (g.ended <==> g.server.pc.Closed? && g.down == [])
  }

  /** Every scored code has been answered with its feedback. */
  ghost predicate FeedbackOk(secret: seq<char>, scored: seq<seq<char>>, sent: seq<Message>) {
    && |Feedbacks(sent)| == |scored|
    && (forall i :: 0 <= i < |scored| ==>
          |scored[i]| == |secret| && Feedbacks(sent)[i] == FeedbackOn(secret, scored[i], i))
  }

  ghost predicate Inv(g: Game) {
    && |g.secret| == LENGTH
    && ScoresOk(g.secret, g.server, g.scored)
    && DeliveryOk(g) && DueOk(g) && EndOk(g)
    && FeedbackOk(g.secret, g.scored, g.sent)
  }

  // ---- The server's moves ----

  lemma SentLists(g: Game, m: Message, pc: ServerPc)
    ensures Prompts(Sent(g, m, pc).down) == Prompts(g.down) + if IsPrompt(m) then 1 else 0
    ensures Feedbacks(Sent(g, m, pc).sent) == Feedbacks(g.sent) + if m.kind.Feedback? then [m] else []
  {
    PromptsConcat(g.down, [m]);
    assert (g.sent + [m])[..|g.sent|] == g.sent;
  }

  lemma SentDelivery(g: Game, m: Message, pc: ServerPc)
    requires DeliveryOk(g) && IsSmall(m)
    ensures DeliveryOk(Sent(g, m, pc))
  {
    assert g.got + (g.down + [m]) == (g.got + g.down) + [m];
  }

  lemma SentEnd(g: Game, m: Message, pc: ServerPc)
    requires EndOk(g) && !g.server.pc.Closed?
    requires IsEnd(m) <==> pc.Closed?
    requires pc.Closed? ==> m.kind == if g.server.positions == LENGTH then Success else Failure
    ensures EndOk(Sent(g, m, pc))
  {
  }

  /** A message other than a feedback, sent from anywhere but the end. */
  lemma SentInv(g: Game, m: Message, pc: ServerPc)
    requires Inv(g) && IsSmall(m) && !m.kind.Feedback? && !g.server.pc.Closed?
    requires IsEnd(m) <==> pc.Closed?
    requires pc.Closed? ==> m.kind == if g.server.positions == LENGTH then Success else Failure
    ensures var r := Sent(g, m, pc);
            DeliveryOk(r) && EndOk(r) && FeedbackOk(r.secret, r.scored, r.sent)
  {
    SentLists(g, m, pc);
    SentDelivery(g, m, pc);
    SentEnd(g, m, pc);
  }

  lemma ScoredFeedback(secret: seq<char>, scored: seq<seq<char>>, sent: seq<Message>, code: seq<char>)
    requires FeedbackOk(secret, scored, sent) && |code| == |secret|
    ensures FeedbackOk(secret, scored + [code], sent + [FeedbackOn(secret, code, |scored|)])
  {
    var m := FeedbackOn(secret, code, |scored|);
    assert (sent + [m])[..|sent|] == sent;
    assert Feedbacks(sent + [m]) == Feedbacks(sent) + [m];
  }

  lemma ScoredScores(secret: seq<char>, sv: Server, scored: seq<seq<char>>, code: seq<char>)
    requires ScoresOk(secret, sv, scored) && sv.pc.Await? && |code| == |secret| == LENGTH
    ensures ScoresOk(secret, Server(Test, sv.guesses + 1, Positions(code, secret)), scored + [code])
  {
    if scored != [] { EqualIffAllPositions(scored[|scored| - 1], secret); }
  }

  lemma ScoredInv(g: Game)
    requires Inv(g) && g.server.pc.Await? && g.up != [] && IsCode(g.up[0])
    ensures Inv(Scored(g))
  {
    var code := CodeOf(g.up[0]);
    var m := FeedbackOn(g.secret, code, g.server.guesses);
    var r := Scored(g);
    assert IsSmall(m) by { CommonBounds(code, g.secret); }
    assert ScoresOk(r.secret, r.server, r.scored) by { ScoredScores(g.secret, g.server, g.scored, code); }
    assert FeedbackOk(r.secret, r.scored, r.sent) by { ScoredFeedback(g.secret, g.scored, g.sent, code); }
    assert DueOk(r) by { SentLists(g, m, Test); }
    assert DeliveryOk(r) by { SentDelivery(g, m, Test); }
    assert EndOk(r) by { SentEnd(g, m, Test); }
  }

  lemma RejectedInv(g: Game)
    requires Inv(g) && g.server.pc.Await? && g.up != []
    ensures Inv(Rejected(g))
  {
    SentInv(g, Plain(Invalid), Await);
    SentLists(g, Plain(Invalid), Await);
  }

  /** The server sends something other than a feedback and moves on. */
  lemma PlainInv(g: Game, k: Kind, pc: ServerPc)
    requires Inv(g) && !k.Feedback? && !g.server.pc.Closed? && !g.server.pc.Await?
    requires IsEnd(Plain(k)) <==> pc.Closed?
    requires pc.Closed? ==> k == if g.server.positions == LENGTH then Success else Failure
    requires IsPrompt(Plain(k)) <==> pc.Await?
    requires ScoresOk(g.secret, g.server.(pc := pc), g.scored)
    ensures Inv(Sent(g, Plain(k), pc))
  {
    SentInv(g, Plain(k), pc);
    SentLists(g, Plain(k), pc);
  }

  lemma ServerInv(g: Game)
    requires Inv(g) && ServerStep(g).Some?
    ensures Inv(ServerStep(g).value)
  {
    if g.server.pc.Greet? {
      PlainInv(g, Display, if g.server.pc.sent + 1 < GREETINGS then Greet(g.server.pc.sent + 1) else Test);
    } else if g.server.pc.Test? {
      if g.server.guesses < MAX_GUESSES && g.server.positions < LENGTH { PlainInv(g, Request, Await); }
    } else if g.server.pc.Await? {
      if IsCode(g.up[0]) { ScoredInv(g); } else { RejectedInv(g); }
    } else {
      PlainInv(g, if g.server.positions == LENGTH then Success else Failure, Closed);
    }
  }

  // ---- The client's moves ----

  lemma ClientKind(g: Game)
    requires Inv(g) && g.down != []
    ensures KindOf(Wire(g.down[0])) == Some(g.down[0].kind)
    ensures IsEnd(g.down[0]) <==> g.server.pc.Closed? && |g.down| == 1
  {
    assert g.down[0] == g.sent[|g.got|];
    WireRoundTrip(g.down[0]);
  }

  lemma TakenLists(g: Game)
    requires g.down != []
    ensures var m := g.down[0];
            && Prompts(g.got + [m]) == Prompts(g.got) + (if IsPrompt(m) then 1 else 0)
            && Prompts(g.down[1..]) == Prompts(g.down) - (if IsPrompt(m) then 1 else 0)
            && g.got + g.down == (g.got + [m]) + g.down[1..]
  {
    var m := g.down[0];
    PromptsConcat(g.got, [m]);
    assert [m][1..] == [];
    assert g.down == [m] + g.down[1..];
  }

  lemma TakenDelivery(g: Game, k: Kind, line: string, f: seq<char>)
    requires DeliveryOk(g) && g.down != [] && k == g.down[0].kind
    ensures DeliveryOk(Taken(g, Some(k), line, f))
    ensures Prompts(Taken(g, Some(k), line, f).down) + |Taken(g, Some(k), line, f).up| == Prompts(g.down) + |g.up|
  {
    TakenLists(g);
    assert g.taken + (g.up + [f]) == (g.taken + g.up) + [f];
  }

  lemma TakenEnd(g: Game, k: Kind, line: string, f: seq<char>)
    requires EndOk(g) && g.down != [] && !g.ended && k == g.down[0].kind
    requires IsEnd(g.down[0]) <==> g.server.pc.Closed? && |g.down| == 1
    ensures EndOk(Taken(g, Some(k), line, f))
  {
  }

  lemma TakenInv(g: Game, k: Kind, line: string, f: seq<char>)
    requires Inv(g) && g.down != [] && !g.ended && k == g.down[0].kind
    requires IsEnd(g.down[0]) <==> g.server.pc.Closed? && |g.down| == 1
    ensures Inv(Taken(g, Some(k), line, f))
  {
    var r := Taken(g, Some(k), line, f);
    assert r.secret == g.secret && r.server == g.server && r.scored == g.scored && r.sent == g.sent;
    TakenDelivery(g, k, line, f);
    TakenEnd(g, k, line, f);
  }

  lemma ClientInv(g: Game, f: seq<char>)
    requires Inv(g) && ClientStep(g, f).Some?
    ensures Inv(ClientStep(g, f).value)
  {
    ClientKind(g);
    TakenInv(g, g.down[0].kind, Printed(Wire(g.down[0])), f);
  }

  // ---- Every run ----

  lemma ChosenInv(g: Game, c: Choice)
    requires Inv(g)
    ensures Inv(Chosen(g, c))
  {
    match c
    case ServerMoves =>
      if ServerStep(g).Some? { ServerInv(g); }
    case ClientMoves(f) =>
      if ClientStep(g, f).Some? { ClientInv(g, f); }
  }

  /** Every reachable state of the game satisfies the invariant. */
  lemma RunInv(secret: seq<char>, choices: seq<Choice>)
    requires |secret| == LENGTH
    ensures Inv(After(secret, choices))
  {
    for n := 0 to |choices|
      invariant Inv(After(secret, choices[..n]))
    {
      assert choices[..n + 1][..n] == choices[..n];
      ChosenInv(After(secret, choices[..n]), choices[n]);
    }
    assert choices[..|choices|] == choices;
  }

  /** In every run one guess at most is due, the client has answered every prompt it has received
      exactly once, at most ten codes are scored, each is answered with its feedback, no message
      but the last is final, the server has closed if and only if that one is, and the client has
      ended if and only if it has received it. */
  lemma GameIsFair(secret: seq<char>, choices: seq<Choice>)
    requires |secret| == LENGTH
    ensures var g := After(secret, choices);
            && |g.up| <= 1 && |g.given| == Prompts(g.got) && g.given == g.taken + g.up && g.sent == g.got + g.down
            && |g.scored| <= 10 && FeedbackOk(secret, g.scored, g.sent)
            && (forall i :: 0 <= i < |g.sent| ==> (IsEnd(g.sent[i]) <==> g.server.pc.Closed? && i == |g.sent| - 1))
            && (g.ended <==> g.got != [] && IsEnd(g.got[|g.got| - 1]))
  {
    var g := After(secret, choices);
    RunInv(secret, choices);
    if g.got != [] { assert g.got[|g.got| - 1] == g.sent[|g.got| - 1]; }
  }

  /** The last message sent is the right verdict on the codes scored. */
  ghost predicate IsVerdict(g: Game) {
    var n := |g.scored|;
    && g.sent != []
    && (g.sent[|g.sent| - 1].kind == Success <==> n > 0 && g.scored[n - 1] == g.secret)
    && (g.sent[|g.sent| - 1].kind == Failure <==> n == 10 && g.secret !in g.scored)
    && (forall i :: 0 <= i < n - 1 ==> g.scored[i] != g.secret)
  }

  /** When the loop has ended, all places of the last code agree, or ten codes have failed. */
  lemma LoopVerdict(secret: seq<char>, sv: Server, scored: seq<seq<char>>)
    requires |secret| == LENGTH && ScoresOk(secret, sv, scored) && sv.pc.Closed?
    ensures var n := |scored|;
            if sv.positions == LENGTH then n > 0 && scored[n - 1] == secret
            else n == 10 && secret !in scored
  {
    var n := |scored|;
    if n > 0 { EqualIffAllPositions(scored[n - 1], secret); }
  }

  lemma ClosedWithVerdict(g: Game)
    requires Inv(g) && g.server.pc.Closed?
    ensures IsVerdict(g)
  {
    LoopVerdict(g.secret, g.server, g.scored);
  }

  /** SUCCESS is sent exactly when the last scored code is the secret, all earlier ones differing
      from it; FAILURE exactly after ten scored codes that all differ from it. */
  lemma Verdict(secret: seq<char>, choices: seq<Choice>)
    requires |secret| == LENGTH && After(secret, choices).server.pc.Closed?
    ensures IsVerdict(After(secret, choices))
  {
    RunInv(secret, choices);
    ClosedWithVerdict(After(secret, choices));
  }

  /** Until the client has ended, the server or the client can move. */
  lemma NeverStuck(secret: seq<char>, choices: seq<Choice>, f: seq<char>)
    requires |secret| == LENGTH && !After(secret, choices).ended
    ensures var g := After(secret, choices); ServerStep(g).Some? || ClientStep(g, f).Some?
  {
    var g := After(secret, choices);
    RunInv(secret, choices);
  }

  // ---- How a game ends ----

  /** The number of guesses that have been rejected. */
  function Rejections(ms: seq<Message>): nat {
    if ms == [] then 0 else Rejections(ms[..|ms| - 1]) + if ms[|ms| - 1].kind.Invalid? then 1 else 0
  }

  lemma RejectionsAppend(ms: seq<Message>, m: Message)
    ensures Rejections(ms + [m]) == Rejections(ms) + if m.kind.Invalid? then 1 else 0
  {
    assert (ms + [m])[..|ms|] == ms;
  }

  /** Every message sent is accounted for: the greetings, a request and a feedback for each scored
      code, the rejections, a request under way, and the verdict. */
  ghost predicate CountOk(g: Game) {
    && (g.server.pc.Greet? ==> g.server.pc.sent < GREETINGS)
    && |g.sent| == (if g.server.pc.Greet? then g.server.pc.sent else GREETINGS)
                   + 2 * |g.scored| + Rejections(g.sent)
                   + (if g.server.pc.Await? || g.server.pc.Closed? then 1 else 0)
  }

  /** A move of the server sends one message, but for the one that leaves the loop. */
  lemma ServerCounts(g: Game)
    requires |g.secret| == LENGTH && CountOk(g) && ServerStep(g).Some?
    ensures var r := ServerStep(g).value;
            && CountOk(r) && r.got == g.got
            && |r.sent| + (if r.server.pc.Finish? || r.server.pc.Closed? then 1 else 0)
               == |g.sent| + (if g.server.pc.Finish? || g.server.pc.Closed? then 1 else 0) + 1
  {
    var r := ServerStep(g).value;
    if |r.sent| > |g.sent| {
      var m := r.sent[|g.sent|];
      assert r.sent == g.sent + [m];
      RejectionsAppend(g.sent, m);
    }
  }

  /** The moves that one of the parties has made in a run. */
  function Moves(secret: seq<char>, choices: seq<Choice>): nat
    requires |secret| == LENGTH
  {
    if choices == [] then 0
    else
      var g := After(secret, choices[..|choices| - 1]);
      var r := match choices[|choices| - 1] case ServerMoves => ServerStep(g) case ClientMoves(f) => ClientStep(g, f);
      Moves(secret, choices[..|choices| - 1]) + if r.Some? then 1 else 0
  }

  ghost predicate MovesOk(g: Game, moves: nat) {
    CountOk(g) && moves == |g.sent| + |g.got| + if g.server.pc.Finish? || g.server.pc.Closed? then 1 else 0
  }

  lemma ChosenCounts(g: Game, c: Choice, moves: nat)
    requires |g.secret| == LENGTH && MovesOk(g, moves)
    ensures var r := match c case ServerMoves => ServerStep(g) case ClientMoves(f) => ClientStep(g, f);
            MovesOk(Chosen(g, c), moves + if r.Some? then 1 else 0)
  {
    if c.ServerMoves? && ServerStep(g).Some? { ServerCounts(g); }
  }

  lemma RunCounts(secret: seq<char>, choices: seq<Choice>)
    requires |secret| == LENGTH
    ensures MovesOk(After(secret, choices), Moves(secret, choices))
  {
    for n := 0 to |choices|
      invariant MovesOk(After(secret, choices[..n]), Moves(secret, choices[..n]))
    {
      assert choices[..n + 1][..n] == choices[..n];
      ChosenCounts(After(secret, choices[..n]), choices[n], Moves(secret, choices[..n]));
    }
    assert choices[..|choices|] == choices;
  }

  /** A game takes at most 49 moves and two more for every rejected guess.  Since a party can move
      until the client has ended, every game with finitely many invalid guesses ends. */
  lemma GameEnds(secret: seq<char>, choices: seq<Choice>)
    requires |secret| == LENGTH
    ensures var g := After(secret, choices);
            && |g.sent| <= GREETINGS + 2 * MAX_GUESSES + 1 + Rejections(g.sent)
            && Moves(secret, choices) <= 49 + 2 * Rejections(g.sent)
  {
    RunInv(secret, choices);
    RunCounts(secret, choices);
  }
}
