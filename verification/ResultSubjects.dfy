/**
 The subjects results are published on (pkg/event/result_topics.go) and the subscriptions of
 client applications (pkg/client/client.go), under NATS token matching.
 */
module ResultSubjects {
  import opened Results
  import opened GoStrings

  datatype Kind = Keygen | Signing | Reshare

  const COMPLETE := "complete"

  function Base(kind: Kind): string {
    match kind
    case Keygen => "mpc_keygen_result"
    case Signing => "mpc_signing_result"
    case Reshare => "mpc_reshare_result"
  }

  function Prefix(kind: Kind): string {
    "mpc." + Base(kind)
  }

  /** `strings.Join(parts, ".")`. */
  function Join(parts: seq<string>): string {
    if |parts| == 0 then "" else if |parts| == 1 then parts[0] else parts[0] + "." + Join(parts[1..])
  }

  function ScopedSubject(prefix: string, clientID: string, tail: string): string {
    Join([prefix] + (if clientID != "" then [clientID] else []) + [tail])
  }

  function StreamSubject(kind: Kind): string {
    Prefix(kind) + ".>"
  }

  /** The last part of a result's subject. */
  function Tail(kind: Kind, id: string): string {
    if kind.Signing? then COMPLETE else id
  }

  /** The subject of one result: a signing result has a fixed last token, the others end with the
      wallet or session ID. */
  function ResultSubject(kind: Kind, clientID: string, id: string): string {
    ScopedSubject(Prefix(kind), clientID, Tail(kind, id))
  }

  function SubscriptionSubject(kind: Kind, clientID: string): string {
    ScopedSubject(Prefix(kind), clientID, Tail(kind, "*"))
  }

  function ResultConsumerName(base: string, clientID: string): string {
    if clientID == "" then base else base + "." + clientID
  }

  function ValidateClientID(clientID: GoString): Result<()> {
    if clientID == "" then Ok(())
    else if TrimSpace(clientID) == "" then Err("client ID cannot be blank")
    else if exists i | 0 <= i < |clientID| :: clientID[i] in " \t\r\n.*>" then
      Err("client ID must be a single NATS subject token")
    else Ok(())
  }

  predicate Forbidden(c: char) {
    c == ' ' || c == '\t' || c == '\r' || c == '\n' || c == '.' || c == '*' || c == '>'
  }

  lemma ForbiddenChars(c: char)
    ensures c in " \t\r\n.*>" <==> Forbidden(c)
  {
    var bad := " \t\r\n.*>";
    assert |bad| == 7 && bad[0] == ' ' && bad[1] == '\t' && bad[2] == '\r' && bad[3] == '\n';
    assert bad[4] == '.' && bad[5] == '*' && bad[6] == '>';
  }

  /** Exactly the IDs that are empty, or not blank and free of blanks, dots and wildcards. */
  lemma ValidClientIff(clientID: GoString)
    ensures ValidateClientID(clientID).Ok? <==>
            clientID == "" || (TrimSpace(clientID) != "" && forall i | 0 <= i < |clientID| :: !Forbidden(clientID[i]))
  {
    forall i | 0 <= i < |clientID| ensures clientID[i] in " \t\r\n.*>" <==> Forbidden(clientID[i]) {
      ForbiddenChars(clientID[i]);
    }
  }

  /** A validated client ID is empty or one token that is no wildcard. */
  lemma ValidClientIsToken(clientID: GoString)
    requires ValidateClientID(clientID).Ok?
    ensures PlainToken(clientID)
  {
    ValidClientIff(clientID);
  }

  /** The prefix constants of the program. */
  function PrefixLiteral(kind: Kind): string {
    match kind
    case Keygen => "mpc.mpc_keygen_result"
    case Signing => "mpc.mpc_signing_result"
    case Reshare => "mpc.mpc_reshare_result"
  }

  lemma PrefixText(kind: Kind)
    ensures Prefix(kind) == PrefixLiteral(kind)
  {}

  /** The text of a result's subject, with and without a client. */
  lemma SubjectText(kind: Kind, clientID: string, id: string)
    ensures var last := if kind.Signing? then "complete" else id;
            ResultSubject(kind, clientID, id) == (if clientID == "" then PrefixLiteral(kind) + "." + last
                                                  else PrefixLiteral(kind) + "." + clientID + "." + last)
  {
    PrefixText(kind);
    ScopedText(PrefixLiteral(kind), clientID, Tail(kind, id));
  }

  lemma ScopedText(prefix: string, clientID: string, tail: string)
    ensures ScopedSubject(prefix, clientID, tail)
         == if clientID == "" then prefix + "." + tail else prefix + "." + clientID + "." + tail
  {
    if clientID == "" {
      JoinTwo(prefix, tail);
    } else {
      JoinThree(prefix, clientID, tail);
      assert prefix + ['.'] + (clientID + ['.'] + tail) == prefix + "." + clientID + "." + tail;
    }
  }

  // ---- NATS matching ----

  /** Matching of a subject's tokens: "*" stands for one token, a final ">" for one or more. */
  predicate TokensMatch(filter: seq<string>, subject: seq<string>) {
    if filter == [] then subject == []
    else if filter == [">"] then subject != []
    else subject != [] && (filter[0] == "*" || filter[0] == subject[0]) && TokensMatch(filter[1..], subject[1..])
  }

  predicate Matches(filter: string, subject: string) {
    TokensMatch(Split(filter, '.'), Split(subject, '.'))
  }

  /** Without ">", matching is token by token. */
  lemma {:induction false} TokenwiseMatch(filter: seq<string>, subject: seq<string>)
    requires ">" !in filter
    ensures TokensMatch(filter, subject) <==>
            |filter| == |subject| && forall i | 0 <= i < |filter| :: filter[i] == "*" || filter[i] == subject[i]
  {
    if filter != [] && subject != [] {
      TokenwiseMatch(filter[1..], subject[1..]);
      assert filter == [filter[0]] + filter[1..] && subject == [subject[0]] + subject[1..];
    }
  }

  /** A literal prefix followed by ">" matches the subjects that extend the prefix. */
  lemma {:induction false} OpenMatch(literal: seq<string>, subject: seq<string>)
    requires ">" !in literal && "*" !in literal
    ensures TokensMatch(literal + [">"], subject) <==> |subject| > |literal| && literal <= subject
  {
    if literal == [] {
      assert literal + [">"] == [">"];
    } else {
      assert (literal + [">"])[1..] == literal[1..] + [">"];
      if subject != [] {
        OpenMatch(literal[1..], subject[1..]);
        assert literal == [literal[0]] + literal[1..] && subject == [subject[0]] + subject[1..];
      }
    }
  }

  // ---- tokens of the subjects ----

  predicate PlainToken(t: string) {
    '.' !in t && t != "*" && t != ">"
  }

  function ClientTokens(clientID: string): seq<string> {
    if clientID == "" then [] else [clientID]
  }

  lemma JoinTwo(p: string, tail: string)
    ensures Join([p] + [] + [tail]) == p + ['.'] + tail
  {
    var parts := [p] + [] + [tail];
    assert parts[1..] == [tail];
  }

  lemma JoinThree(p: string, c: string, tail: string)
    ensures Join([p] + [c] + [tail]) == p + ['.'] + (c + ['.'] + tail)
  {
    var parts := [p] + [c] + [tail];
    assert parts[1..] == [c, tail] && parts[1..][1..] == [tail];
    assert Join(parts[1..]) == c + "." + tail;
    assert Join(parts) == p + "." + (c + "." + tail);
    assert p + "." + (c + "." + tail) == p + ['.'] + (c + ['.'] + tail);
  }

  lemma SplitThree(p: string, c: string, tail: string)
    requires '.' !in c
    ensures Split(p + ['.'] + (c + ['.'] + tail), '.') == Split(p, '.') + [c] + Split(tail, '.')
  {
    SplitConcat(p, c + ['.'] + tail, '.');
    SplitConcat(c, tail, '.');
    SplitToken(c, '.');
    assert Split(p, '.') + ([c] + Split(tail, '.')) == Split(p, '.') + [c] + Split(tail, '.');
  }

  lemma ScopedTokens(prefix: string, clientID: string, tail: string)
    requires '.' !in clientID
    ensures Split(ScopedSubject(prefix, clientID, tail), '.')
         == Split(prefix, '.') + ClientTokens(clientID) + Split(tail, '.')
  {
    if clientID == "" {
      JoinTwo(prefix, tail);
      SplitConcat(prefix, tail, '.');
      assert Split(prefix, '.') + [] == Split(prefix, '.');
    } else {
      JoinThree(prefix, clientID, tail);
      SplitThree(prefix, clientID, tail);
    }
  }

  /** The first two tokens of every subject of a kind. */
  function Head(kind: Kind): seq<string> {
    Split(Prefix(kind), '.')
  }

  lemma HeadTokens(kind: Kind)
    ensures |Head(kind)| == 2 && Head(kind)[0] == "mpc" && Head(kind)[1] == Base(kind)
    ensures PlainToken(Head(kind)[0]) && PlainToken(Head(kind)[1])
  {
    PlainBase(kind);
    SplitToken("mpc", '.');
    SplitToken(Base(kind), '.');
    SplitConcat("mpc", Base(kind), '.');
    assert Prefix(kind) == "mpc" + ['.'] + Base(kind);
  }

  lemma PlainBase(kind: Kind)
    ensures PlainToken(Base(kind))
  {}

  lemma KindsDiffer(kind: Kind, kind': Kind)
    ensures Head(kind) == Head(kind') <==> kind == kind'
  {
    HeadTokens(kind);
    HeadTokens(kind');
    BasesDiffer(kind, kind');
  }

  lemma BasesDiffer(kind: Kind, kind': Kind)
    ensures Base(kind) == Base(kind') <==> kind == kind'
  {
    assert Base(Keygen)[4] == 'k' && Base(Signing)[4] == 's' && Base(Reshare)[4] == 'r';
  }

  /** The shape a subscription's tokens match: head, client if any, last token. */
  predicate HasShape(head: seq<string>, clientID: string, last: string, subject: seq<string>) {
    && |subject| == |head| + |ClientTokens(clientID)| + 1 && head <= subject
    && (clientID != "" ==> subject[|head|] == clientID)
    && (last != "*" ==> subject[|subject| - 1] == last)
  }

  lemma ShapeMatch(head: seq<string>, clientID: string, last: string, subject: seq<string>)
    requires |head| == 2 && PlainToken(head[0]) && PlainToken(head[1])
    requires PlainToken(clientID) && last != ">"
    ensures TokensMatch(head + ClientTokens(clientID) + [last], subject) <==> HasShape(head, clientID, last, subject)
  {
    var filter := head + ClientTokens(clientID) + [last];
    TokenwiseMatch(filter, subject);
    if clientID == "" {
      assert filter == [head[0], head[1], last];
    } else {
      assert filter == [head[0], head[1], clientID, last];
    }
    if |subject| == |filter| {
      assert head <= subject <==> subject[0] == head[0] && subject[1] == head[1];
    }
  }

  /** A subscription matches exactly the subjects of its shape. */
  lemma SubscriptionMatch(kind: Kind, clientID: GoString, subject: string)
    requires ValidateClientID(clientID).Ok?
    ensures Matches(SubscriptionSubject(kind, clientID), subject)
       <==> HasShape(Head(kind), clientID, Tail(kind, "*"), Split(subject, '.'))
  {
    ValidClientIsToken(clientID);
    var last := Tail(kind, "*");
    SplitToken(last, '.');
    ScopedTokens(Prefix(kind), clientID, last);
    HeadTokens(kind);
    ShapeMatch(Head(kind), clientID, last, Split(subject, '.'));
  }

  // ---- the promises ----

  /** The exact reach of a subscription over results with any ID. A result of the same client is
      matched when its ID is a single token; a result without client is matched by the client
      that its two-token ID starts with. */
  lemma SubscriptionReach(kind: Kind, clientID: GoString, kind': Kind, clientID': GoString, id: string)
    requires ValidateClientID(clientID).Ok? && ValidateClientID(clientID').Ok?
    ensures var t := Split(Tail(kind', id), '.');
            Matches(SubscriptionSubject(kind, clientID), ResultSubject(kind', clientID', id)) <==>
            && kind == kind'
            && ((clientID == clientID' && |t| == 1)
                || (clientID != "" && clientID' == "" && |t| == 2 && t[0] == clientID))
  {
    ValidClientIsToken(clientID');
    ResultTokens(kind', clientID', id);
    SigningTail(kind', id);
    SubscriptionMatch(kind, clientID, ResultSubject(kind', clientID', id));
    KindReach(kind, clientID, kind', clientID', Split(Tail(kind', id), '.'));
  }

  lemma ResultTokens(kind: Kind, clientID: string, id: string)
    requires '.' !in clientID
    ensures Split(ResultSubject(kind, clientID, id), '.')
         == Head(kind) + ClientTokens(clientID) + Split(Tail(kind, id), '.')
  {
    ScopedTokens(Prefix(kind), clientID, Tail(kind, id));
  }

  lemma SigningTail(kind: Kind, id: string)
    ensures kind.Signing? ==> Split(Tail(kind, id), '.') == [COMPLETE]
  {
    if kind.Signing? {
      SplitToken(COMPLETE, '.');
    }
  }

  lemma KindReach(kind: Kind, c: string, kind': Kind, c': string, t: seq<string>)
    requires |t| > 0 && (kind'.Signing? ==> t == [COMPLETE])
    ensures HasShape(Head(kind), c, Tail(kind, "*"), Head(kind') + ClientTokens(c') + t) <==>
            && kind == kind'
            && ((c == c' && |t| == 1) || (c != "" && c' == "" && |t| == 2 && t[0] == c))
  {
    HeadTokens(kind);
    HeadTokens(kind');
    KindsDiffer(kind, kind');
    ShapeReach(Head(kind), c, Tail(kind, "*"), Head(kind'), c', t);
  }

  lemma ShapeReach(head: seq<string>, c: string, last: string, head': seq<string>, c': string, t: seq<string>)
    requires |head| == |head'| == 2 && |t| > 0
    ensures HasShape(head, c, last, head' + ClientTokens(c') + t) <==>
            && head == head' && (last != "*" ==> t[|t| - 1] == last)
            && ((c == c' && |t| == 1) || (c != "" && c' == "" && |t| == 2 && t[0] == c))
  {
    var subject := head' + ClientTokens(c') + t;
    assert subject[2] == if c' != "" then c' else t[0];
    assert subject[|subject| - 1] == t[|t| - 1];
    assert subject[..2] == head';
    assert head <= subject <==> head == head';
  }

  /** For IDs of one token a client receives exactly its own results. */
  lemma OwnResultsOnly(kind: Kind, clientID: GoString, kind': Kind, clientID': GoString, id: string)
    requires ValidateClientID(clientID).Ok? && ValidateClientID(clientID').Ok? && '.' !in id
    ensures Matches(SubscriptionSubject(kind, clientID), ResultSubject(kind', clientID', id))
       <==> kind == kind' && clientID == clientID'
  {
    SplitToken(id, '.');
    SplitToken(COMPLETE, '.');
    SubscriptionReach(kind, clientID, kind', clientID', id);
  }

  /** With an ID of two tokens a result without client goes to another client. */
  lemma DottedIdExample()
    ensures Matches(SubscriptionSubject(Keygen, "c"), ResultSubject(Keygen, "", "c.x"))
    ensures !Matches(SubscriptionSubject(Keygen, ""), ResultSubject(Keygen, "", "c.x"))
  {
    SplitToken("c", '.');
    SplitToken("x", '.');
    SplitConcat("c", "x", '.');
    assert "c.x" == "c" + ['.'] + "x";
    SingleLetterClient();
    SubscriptionReach(Keygen, "c", Keygen, "", "c.x");
    SubscriptionReach(Keygen, "", Keygen, "", "c.x");
  }

  lemma SingleLetterClient()
    ensures ValidateClientID("c").Ok?
  {
    assert SpaceWidth("c") == 0;
    assert "c"[0..] == "c";
    assert !EndsInSpace("c", 1);
    assert TrimSpace("c") == "c";
  }

  /** No subject at all is matched by the subscriptions of two clients or of two kinds. */
  lemma SubscriptionsDisjoint(kind: Kind, clientID: GoString, kind': Kind, clientID': GoString, subject: string)
    requires ValidateClientID(clientID).Ok? && ValidateClientID(clientID').Ok?
    requires Matches(SubscriptionSubject(kind, clientID), subject)
    requires Matches(SubscriptionSubject(kind', clientID'), subject)
    ensures kind == kind' && clientID == clientID'
  {
    SubscriptionMatch(kind, clientID, subject);
    SubscriptionMatch(kind', clientID', subject);
    HeadTokens(kind);
    HeadTokens(kind');
    KindsDiffer(kind, kind');
    SameShape(Head(kind), clientID, Tail(kind, "*"), Head(kind'), clientID', Tail(kind', "*"), Split(subject, '.'));
  }

  lemma SameShape(
      head: seq<string>, c: string, last: string, head': seq<string>, c': string, last': string, t: seq<string>)
    requires |head| == |head'| && HasShape(head, c, last, t) && HasShape(head', c', last', t)
    ensures head == head' && c == c'
  {
    assert head == t[..|head|] && head' == t[..|head'|];
  }

  lemma StreamTokens(prefix: string)
    ensures Split(prefix + ".>", '.') == Split(prefix, '.') + [">"]
  {
    SplitToken(">", '.');
    SplitConcat(prefix, ">", '.');
    assert prefix + ".>" == prefix + ['.'] + ">";
  }

  lemma StreamMatch(kind: Kind, subject: seq<string>)
    ensures TokensMatch(Split(StreamSubject(kind), '.'), subject) <==> |subject| > 2 && Head(kind) <= subject
  {
    StreamTokens(Prefix(kind));
    HeadTokens(kind);
    OpenHeadMatch(Head(kind), subject);
  }

  lemma OpenHeadMatch(head: seq<string>, subject: seq<string>)
    requires |head| == 2 && PlainToken(head[0]) && PlainToken(head[1])
    ensures TokensMatch(head + [">"], subject) <==> |subject| > 2 && head <= subject
  {
    OpenMatch(head, subject);
  }

  /** The stream holds every result, and whatever a subscription can match. */
  lemma StreamCovers(kind: Kind, clientID: GoString, id: string, subject: string)
    requires ValidateClientID(clientID).Ok?
    ensures Matches(StreamSubject(kind), ResultSubject(kind, clientID, id))
    ensures Matches(SubscriptionSubject(kind, clientID), subject) ==> Matches(StreamSubject(kind), subject)
  {
    HeadTokens(kind);
    ValidClientIsToken(clientID);
    ResultTokens(kind, clientID, id);
    StreamMatch(kind, Head(kind) + ClientTokens(clientID) + Split(Tail(kind, id), '.'));
    SubscriptionMatch(kind, clientID, subject);
    StreamMatch(kind, Split(subject, '.'));
  }

  /** Consumers of different kinds or clients have different names. */
  lemma ConsumerNameInjective(kind: Kind, clientID: GoString, kind': Kind, clientID': GoString)
    requires ValidateClientID(clientID).Ok? && ValidateClientID(clientID').Ok?
    requires ResultConsumerName(Base(kind), clientID) == ResultConsumerName(Base(kind'), clientID')
    ensures kind == kind' && clientID == clientID'
  {
    NameTokens(kind, clientID);
    NameTokens(kind', clientID');
    var t := [Base(kind)] + ClientTokens(clientID);
    var t' := [Base(kind')] + ClientTokens(clientID');
    assert t == t';
    assert t[0] == Base(kind) && t'[0] == Base(kind');
    assert t[1..] == ClientTokens(clientID) && t'[1..] == ClientTokens(clientID');
    BasesDiffer(kind, kind');
  }

  lemma NameTokens(kind: Kind, clientID: GoString)
    requires ValidateClientID(clientID).Ok?
    ensures Split(ResultConsumerName(Base(kind), clientID), '.') == [Base(kind)] + ClientTokens(clientID)
  {
    ValidClientIsToken(clientID);
    PlainBase(kind);
    SplitToken(Base(kind), '.');
    SplitToken(clientID, '.');
    SplitConcat(Base(kind), clientID, '.');
    assert Base(kind) + "." + clientID == Base(kind) + ['.'] + clientID;
  }
}
