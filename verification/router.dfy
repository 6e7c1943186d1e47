/** The command-line front end of Main.py without the language model: the
    keyword test that detects a booking request, and the two-mode switch of
    the interactive loop that decides which agent answers a line and which
    conversation history it continues. The agents themselves are outside the
    model; what an agent answers is an input to a turn. */
module Router {
  import opened Wrappers
  import opened Text

  // ---------------------------------------------------------------------
  // detect_booking_intent
  // ---------------------------------------------------------------------

  /** The verbs that, next to "appointment" or "appt", mark a booking request. */
  const BookingVerbs: seq<string> := ["book", "schedule", "make", "set", "arrange", "fix", "reserve"]

  /** `any(w in t for w in words)`. */
  function ContainsAny(t: string, words: seq<string>): (r: bool)
    ensures r <==> exists k :: 0 <= k < |words| && Contains(t, words[k])
  {
    if |words| == 0 then false
    else
      var rest := ContainsAny(t, words[1..]);
      assert forall k :: 1 <= k < |words| ==> words[k] == words[1..][k - 1];
      Contains(t, words[0]) || rest
  }

  /** The text mentions an appointment: "appointment" or "appt" occurs in it. */
  ghost predicate MentionsAppointment(t: string) {
    (exists i :: OccursAt(t, "appointment", i)) || (exists i :: OccursAt(t, "appt", i))
  }

  /** One of the booking verbs occurs in the text. */
  ghost predicate MentionsBookingVerb(t: string) {
    exists k, i :: 0 <= k < |BookingVerbs| && OccursAt(t, BookingVerbs[k], i)
  }

  /** `detect_booking_intent`: on the lower-cased text, no mention of an
      appointment means no intent; otherwise any booking verb means intent. */
  function DetectBookingIntent(text: string): bool {
    var t := Lower(text);
    if !Contains(t, "appointment") && !Contains(t, "appt") then false
    else ContainsAny(t, BookingVerbs)
  }

  /** The intent is detected exactly when the lower-cased text mentions an
      appointment and contains a booking verb, wherever they occur. */
  lemma DetectBookingIntentIff(text: string)
    ensures DetectBookingIntent(text) <==> MentionsAppointment(Lower(text)) && MentionsBookingVerb(Lower(text))
  {
    var t := Lower(text);
    ContainsIff(t, "appointment");
    ContainsIff(t, "appt");
    if ContainsAny(t, BookingVerbs) {
      var k :| 0 <= k < |BookingVerbs| && Contains(t, BookingVerbs[k]);
      ContainsIff(t, BookingVerbs[k]);
    }
    if MentionsBookingVerb(t) {
      var k, i :| 0 <= k < |BookingVerbs| && OccursAt(t, BookingVerbs[k], i);
      ContainsAt(t, BookingVerbs[k], i);
    }
  }

  /** Without "appointment" or "appt" there is no intent, whatever else the text says. */
  lemma NoMentionNoIntent(text: string)
    requires !MentionsAppointment(Lower(text))
    ensures !DetectBookingIntent(text)
  {
    DetectBookingIntentIff(text);
  }

  /** The test does not depend on letter case. */
  lemma IntentIgnoresCase(text: string)
    ensures DetectBookingIntent(Lower(text)) == DetectBookingIntent(text)
  {
    LowerIsLower(text);
    LowerKeepsLower(Lower(text));
  }

  /** "reschedule" contains "schedule", so a text that mentions an
      appointment and "reschedule" is taken for a booking request too. */
  lemma RescheduleCountsAsBooking(text: string, i: int, j: int)
    requires OccursAt(Lower(text), "appointment", i)
    requires OccursAt(Lower(text), "reschedule", j)
    ensures DetectBookingIntent(text)
  {
    var t := Lower(text);
    assert t[j + 2..j + 10] == t[j..j + 10][2..10];
    assert OccursAt(t, BookingVerbs[1], j + 2);
    DetectBookingIntentIff(text);
  }

  // ---------------------------------------------------------------------
  // The mode switch of the interactive loop
  // ---------------------------------------------------------------------

  datatype Mode = GeneralMode | BookingMode

  datatype Agent = GeneralAgent | BookingAgent

  /** The loop's state: the active mode and the two conversation histories. */
  datatype Session<M> = Session(mode: Mode, general: seq<M>, booking: seq<M>)

  /** What the loop hands to `run_turn`: which agent, the history it continues, and the text. */
  datatype Call<M> = Call(agent: Agent, history: seq<M>, text: string)

  /** What `run_turn` gives back: the agent's message list and its final text. */
  datatype Reply<M> = Reply(messages: seq<M>, output: string)

  /** The state before the first line. */
  function FreshSession<M>(): Session<M> {
    Session(GeneralMode, [], [])
  }

  const Confirmation: string := "appointment booked"

  /** The reply confirms a booking: `re.search(r"\bappointment booked\b", output.lower())`. */
  predicate ConfirmsBooking(output: string) {
    ContainsBounded(Lower(output), Confirmation)
  }

  /** Which agent answers a raw input line, and with what: the line is
      trimmed; an empty line is skipped; a detected intent or an active
      booking mode sends it to the booking agent, anything else to the general one. */
  function Dispatch<M>(s: Session<M>, line: string): (c: Option<Call<M>>)
    ensures c.None? <==> AllSpace(line)
    ensures c.Some? ==> c.value.text == Strip(line)
    ensures c.Some? ==>
      (c.value.agent == BookingAgent <==> DetectBookingIntent(Strip(line)) || s.mode == BookingMode)
    ensures c.Some? && c.value.agent == BookingAgent ==> c.value.history == s.booking
    ensures c.Some? && c.value.agent == GeneralAgent ==> c.value.history == s.general
  {
    StripEmptyIff(line);
    var text := Strip(line);
    if text == "" then None
    else if DetectBookingIntent(text) || s.mode == BookingMode then Some(Call(BookingAgent, s.booking, text))
    else Some(Call(GeneralAgent, s.general, text))
  }

  /** One pass of the loop: dispatch the line and record the agent's reply.
      A booking turn returns to general mode, with the booking history
      cleared, exactly when the reply confirms a booking; a general turn keeps
      the booking history untouched. */
  function Turn<M>(s: Session<M>, line: string, reply: Reply<M>): (t: Session<M>)
    ensures Dispatch(s, line).None? ==> t == s
    ensures Dispatch(s, line).Some? && Dispatch(s, line).value.agent == BookingAgent ==>
      t.general == s.general
      && (t.mode == GeneralMode <==> ConfirmsBooking(reply.output))
      && (t.mode == GeneralMode ==> t.booking == [])
      && (t.mode == BookingMode ==> t.booking == reply.messages)
    ensures Dispatch(s, line).Some? && Dispatch(s, line).value.agent == GeneralAgent ==>
      t == Session(GeneralMode, reply.messages, s.booking)
  {
    match Dispatch(s, line)
    case None => s
    case Some(call) =>
      if call.agent == BookingAgent then
        if ConfirmsBooking(reply.output) then Session(GeneralMode, s.general, [])
        else Session(BookingMode, s.general, reply.messages)
      else Session(GeneralMode, reply.messages, s.booking)
  }

  /** Booking mode is left only through a confirming reply. */
  lemma BookingModeEndsOnlyOnConfirmation<M>(s: Session<M>, line: string, reply: Reply<M>)
    requires s.mode == BookingMode
    ensures Turn(s, line, reply).mode == GeneralMode ==> ConfirmsBooking(reply.output) && !AllSpace(line)
  {
  }

  /** A line with booking intent always lands in booking mode unless the
      booking agent confirms at once. */
  lemma IntentForcesBookingMode<M>(s: Session<M>, line: string, reply: Reply<M>)
    requires !AllSpace(line) && DetectBookingIntent(Strip(line))
    ensures Dispatch(s, line).Some? && Dispatch(s, line).value.agent == BookingAgent
    ensures Turn(s, line, reply).mode == BookingMode <==> !ConfirmsBooking(reply.output)
  {
  }

  /** The loop over a sequence of lines, one reply per line. */
  function Run<M>(s: Session<M>, lines: seq<string>, replies: seq<Reply<M>>): Session<M>
    requires |replies| == |lines|
    decreases |lines|
  {
    if |lines| == 0 then s else Run(Turn(s, lines[0], replies[0]), lines[1..], replies[1..])
  }

  /** Once in booking mode, the loop stays there for as long as no booking
      reply confirms a booking. */
  lemma {:induction false} BookingModePersists<M>(s: Session<M>, lines: seq<string>, replies: seq<Reply<M>>)
    requires |replies| == |lines| && s.mode == BookingMode
    requires forall k :: 0 <= k < |replies| ==> !ConfirmsBooking(replies[k].output)
    ensures Run(s, lines, replies).mode == BookingMode
    decreases |lines|
  {
    if |lines| > 0 {
      assert !ConfirmsBooking(replies[0].output);
      var next := Turn(s, lines[0], replies[0]);
      assert next.mode == BookingMode;
      assert forall k :: 0 <= k < |replies| - 1 ==> replies[1..][k] == replies[k + 1];
      BookingModePersists(next, lines[1..], replies[1..]);
    }
  }

  /** The confirmation test is a word-bounded match: "appointment booked"
      must occur with a non-word character (or the end) on both sides. */
  lemma ConfirmsBookingIff(output: string)
    ensures ConfirmsBooking(output) <==> exists i :: BoundedAt(Lower(output), Confirmation, i)
  {
    ContainsBoundedIff(Lower(output), Confirmation);
    assert ContainsBounded(Lower(output), Confirmation) <==> exists i :: BoundedAt(Lower(output), Confirmation, i);
    assert ConfirmsBooking(output) == ContainsBounded(Lower(output), Confirmation);
  }

  // ---------------------------------------------------------------------
  // One-shot mode: the words given on the command line
  // ---------------------------------------------------------------------

  /** `sep.join(words)`. */
  function Join(words: seq<string>, sep: string): string {
    if |words| == 0 then ""
    else if |words| == 1 then words[0]
    else words[0] + sep + Join(words[1..], sep)
  }

  /** With arguments, Main.py answers once: the words joined by spaces go,
      untrimmed, to the booking agent on a detected intent and to the general
      agent otherwise, each with an empty history. */
  function OneShot<M>(args: seq<string>): (c: Call<M>)
    ensures c.text == Join(args, " ") && c.history == []
    ensures c.agent == BookingAgent <==> DetectBookingIntent(Join(args, " "))
  {
    var text := Join(args, " ");
    if DetectBookingIntent(text) then Call(BookingAgent, [], text) else Call(GeneralAgent, [], text)
  }

  /** For a trimmed, non-empty command line the one-shot answer goes where the
      first line of a fresh interactive session would go. */
  lemma OneShotAgreesWithLoop<M>(args: seq<string>)
    requires Join(args, " ") != "" && Strip(Join(args, " ")) == Join(args, " ")
    ensures Dispatch(FreshSession<M>(), Join(args, " ")) == Some(OneShot<M>(args))
  {
    StripEmptyIff(Join(args, " "));
  }
}
