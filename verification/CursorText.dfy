/** What a cursor looks like as text, and which tokens do not open. */
module CursorText {
  import opened Wrappers
  import opened Events
  import opened EventPagination
  import opened FeedPage
  import Timestamps
  import JsonText
  import Base64
  import Utf8

  // ---- the JSON of a cursor ----

  /** No character of `v` is escaped. */
  predicate Plain(v: string) {
    forall i :: 0 <= i < |v| ==>
      v[i] >= ' ' && v[i] !in {'"', '\\', '<', '>', '&', '\U{2028}', '\U{2029}'}
  }

  function Part(name: string, value: string): seq<string> {
    if value == "" then [] else ["\"" + name + "\":\"" + value + "\""]
  }

  function Join(parts: seq<string>): string {
    if parts == [] then ""
    else if |parts| == 1 then parts[0]
    else parts[0] + "," + Join(parts[1..])
  }

  lemma {:induction false} QuotePlain(v: string, rest: string)
    requires Plain(v)
    ensures JsonText.QuoteChars(v, rest) == v + "\"" + rest
  {
    if v != "" {
      QuotePlain(v[1..], rest);
      assert JsonText.QuoteChar(v[0]) == [v[0]];
      assert v == [v[0]] + v[1..];
    }
  }

  function MemberText(m: JsonText.Member): string {
    "\"" + m.0 + "\":\"" + m.1 + "\""
  }

  lemma MemberPlain(m: JsonText.Member, rest: string)
    requires Plain(m.0) && Plain(m.1)
    ensures JsonText.Quote(m.0, ":" + JsonText.Quote(m.1, rest)) == MemberText(m) + rest
  {
    QuotePlain(m.1, rest);
    QuotePlain(m.0, ":" + JsonText.Quote(m.1, rest));
    assert JsonText.Quote(m.1, rest) == "\"" + (m.1 + "\"" + rest);
  }

  function MemberTexts(ms: seq<JsonText.Member>): seq<string> {
    seq(|ms|, i requires 0 <= i < |ms| => MemberText(ms[i]))
  }

  lemma {:induction false} MembersPlain(ms: seq<JsonText.Member>)
    requires ms != [] && forall i :: 0 <= i < |ms| ==> Plain(ms[i].0) && Plain(ms[i].1)
    ensures JsonText.WriteMembers(ms) == Join(MemberTexts(ms)) + "}"
  {
    if |ms| == 1 {
      MemberPlain(ms[0], "}");
    } else {
      MembersPlain(ms[1..]);
      assert MemberTexts(ms)[1..] == MemberTexts(ms[1..]);
      MemberPlain(ms[0], "," + JsonText.WriteMembers(ms[1..]));
    }
  }

  function PartsOf(c: PageCursor): seq<string> {
    Part("start_at", c.startAt) + (Part("latest_event_seen", c.latestEventSeen) + Part("last_key", c.lastKey))
  }

  lemma FieldText(name: string, value: string)
    ensures MemberTexts(Field(name, value)) == Part(name, value)
  {
  }

  lemma TextsConcat(a: seq<JsonText.Member>, b: seq<JsonText.Member>)
    ensures MemberTexts(a + b) == MemberTexts(a) + MemberTexts(b)
  {
  }

  lemma MembersAreParts(c: PageCursor)
    ensures MemberTexts(Members(c)) == PartsOf(c)
  {
    var a, b := Field("start_at", c.startAt), Field("latest_event_seen", c.latestEventSeen);
    var d := Field("last_key", c.lastKey);
    FieldText("start_at", c.startAt);
    FieldText("latest_event_seen", c.latestEventSeen);
    FieldText("last_key", c.lastKey);
    TextsConcat(a + b, d);
    TextsConcat(a, b);
  }

  predicate PlainCursor(c: PageCursor) {
    Plain(c.startAt) && Plain(c.latestEventSeen) && Plain(c.lastKey)
  }

  lemma MembersArePlain(c: PageCursor)
    requires PlainCursor(c)
    ensures forall i :: 0 <= i < |Members(c)| ==> Plain(Members(c)[i].0) && Plain(Members(c)[i].1)
  {
    assert Plain("start_at") && Plain("latest_event_seen") && Plain("last_key");
  }

  lemma ObjectText(c: PageCursor)
    requires PlainCursor(c)
    ensures JsonText.WriteObject(Members(c)) == "{" + Join(PartsOf(c)) + "}"
  {
    MembersAreParts(c);
    MembersArePlain(c);
    if Members(c) != [] {
      MembersPlain(Members(c));
    } else {
      assert PartsOf(c) == [] && Join([]) == "";
    }
  }

  /** A token is the base64 of this text: the fields that are not empty, in order, under their names. */
  lemma CursorJson(c: PageCursor)
    requires PlainCursor(c)
    ensures Base64.Decode(MarshalText(c)) == Some(Utf8.Encode("{" + Join(PartsOf(c)) + "}"))
  {
    ObjectText(c);
    Base64.EncodeDecodes(Utf8.Encode(JsonText.WriteObject(Members(c))));
  }

  // ---- tokens that do not open ----

  predicate IsSpace(c: char) {
    c == ' ' || c == '\t' || c == '\n' || c == '\r'
  }

  /** The first character that is not white space is an opening brace. */
  predicate OpensObject(s: string) {
    s != "" && (if IsSpace(s[0]) then OpensObject(s[1..]) else s[0] == '{')
  }

  lemma {:induction false} SkipToObject(s: string)
    ensures OpensObject(s) <==> JsonText.SkipSpace(s) != "" && JsonText.SkipSpace(s)[0] == '{'
  {
    if s != "" && IsSpace(s[0]) {
      SkipToObject(s[1..]);
    }
  }

  /** A non-empty token that is not base64, whose text is no JSON object, or whose start_at is no timestamp is
      refused for that reason; it never stands for a blank cursor. */
  lemma BadTokens(token: string, earliest: Option<Instant>, now: Instant)
    requires token != ""
    ensures !Base64.IsBase64(token) ==> Opened(Some(token), earliest, now) == Failure(BadCursorEncoding)
    ensures Base64.Decode(token).Some? && !OpensObject(Utf8.Decode(Base64.Decode(token).value)) ==>
      Opened(Some(token), earliest, now) == Failure(BadCursorJson)
  {
    Base64.OnlyBase64Decodes(token);
    if Base64.Decode(token).Some? {
      SkipToObject(Utf8.Decode(Base64.Decode(token).value));
    }
  }

  /** ... and a cursor whose start_at is no timestamp opens no search. */
  lemma BadStart(c: PageCursor, earliest: Option<Instant>, now: Instant)
    requires c.startAt != "" && Timestamps.Parse(c.startAt).None?
    ensures Opened(Some(MarshalText(c)), earliest, now) == Failure(BadStartAt)
  {
    TextDecodes(c);
    CursorRoundTrip(c, earliest, now);
  }

  // ---- reading members ----

  /** The last member of a name decides its field; null and other names change nothing. */
  lemma {:induction false} LastMemberDecides(c: PageCursor, ms: seq<(string, Option<string>)>,
      m: (string, Option<string>))
    ensures var before, after := AssignAll(c, ms), AssignAll(c, ms + [m]);
      && after.startAt == (if m.0 == "start_at" && m.1.Some? then m.1.value else before.startAt)
      && after.latestEventSeen
         == (if m.0 == "latest_event_seen" && m.1.Some? then m.1.value else before.latestEventSeen)
      && after.lastKey == (if m.0 == "last_key" && m.1.Some? then m.1.value else before.lastKey)
    decreases ms
  {
    if ms == [] {
      assert AssignAll(c, [m]) == AssignAll(Assign(c, m), [m][1..]);
    } else {
      assert (ms + [m])[1..] == ms[1..] + [m];
      LastMemberDecides(Assign(c, ms[0]), ms[1..], m);
    }
  }
}
