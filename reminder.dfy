/**
 * The `/hatirlat` request parser: from the command's argument words, the
 * date extractor's answer and the clock, either a reason for refusing the
 * request or the instant to fire at and the reminder text.
 *
 * The date extractor (`search_dates`) is not modelled: its answer is an
 * input, either a fault (it raised) or its list of (matched substring,
 * resolved instant) pairs, empty when it found nothing.
 */
module Reminder {
  import opened Text

  /** A point in time on the bot's naive local clock, in microseconds. */
  type Instant = int

  /** `timedelta(days=1)` in microseconds. */
  const OneDay: int := 86_400_000_000

  /** The text used when nothing is left once the time expression is removed. */
  const DefaultMessage: string := "Hatırlatma"

  datatype Match = Match(text: string, at: Instant)

  datatype Extraction =
    | Fault                       // the extractor raised
    | Matches(found: seq<Match>)  // what it found, in its own order

  datatype Outcome =
    | Usage                                        // no argument words
    | DateFault                                    // the extractor raised
    | NoTimeExpression                             // the extractor found nothing
    | PastTime(shown: Instant)                     // still in the past after one day's rollover
    | Ready(runAt: Instant, message: string)       // to be scheduled

  /** The separators that may stand between the time expression and the message. */
  predicate IsSeparator(c: char)
  {
    c == '-' || c == ':'
  }

  /** Lines 192-193: an empty remainder is replaced by the default text. */
  function WithDefault(body: string): (m: string)
    ensures m != []
    ensures body != [] ==> m == body
  {
    if body == [] then DefaultMessage else body
  }

  /** Lines 195-196: one leading separator is dropped and the rest stripped again. */
  function DropSeparator(m: string): (msg: string)
    ensures m == [] || !IsSeparator(m[0]) ==> msg == m
    ensures m != [] && IsSeparator(m[0]) ==> |msg| < |m| && (msg == [] <==> AllSpace(m[1..]))
  {
    if m != [] && IsSeparator(m[0]) then Strip(m[1..]) else m
  }

  /** The clean-up of the stripped remainder, in the source's order: default first, separator second. */
  function Finish(body: string): (msg: string)
    ensures msg == [] <==> body != [] && IsSeparator(body[0]) && AllSpace(body[1..])
  {
    DropSeparator(WithDefault(body))
  }

  /** The reminder text: the joined words with every copy of the matched text removed, then cleaned up. */
  function ExtractMessage(fullText: string, foundText: string): (msg: string)
    ensures foundText == [] || !Occurs(foundText, fullText) ==> msg == Finish(Strip(fullText))
  {
    Finish(Strip(RemoveAll(fullText, foundText)))
  }

  /**
   * The whole parse. Only the first match is looked at; a time strictly
   * before `now` is moved one day later and, if then strictly before
   * `recheck` (the second clock reading), refused.
   */
  function ParseReminder(args: seq<string>, extraction: Extraction, now: Instant, recheck: Instant): (o: Outcome)
    ensures o.Usage? <==> args == []
    ensures o.DateFault? <==> args != [] && extraction.Fault?
    ensures o.NoTimeExpression? <==> args != [] && extraction == Matches([])
    ensures o.PastTime? <==>
      && args != [] && extraction.Matches? && extraction.found != []
      && extraction.found[0].at < now && extraction.found[0].at + OneDay < recheck
    ensures o.PastTime? ==> o.shown == extraction.found[0].at + OneDay
    ensures o.Ready? ==>
      && extraction.Matches? && extraction.found != []
      && (|| (o.runAt == extraction.found[0].at && now <= o.runAt)
          || (o.runAt == extraction.found[0].at + OneDay && extraction.found[0].at < now && recheck <= o.runAt))
      && o.message == ExtractMessage(Join(args, " "), extraction.found[0].text)
  {
    if args == [] then
      Usage
    else
      var fullText := Join(args, " ");
      match extraction
      case Fault => DateFault
      case Matches(found) =>
        if found == [] then
          NoTimeExpression
        else
          var first := found[0];
          var at := if first.at < now then first.at + OneDay else first.at;
          if first.at < now && at < recheck then
            PastTime(at)
          else
            Ready(at, ExtractMessage(fullText, first.text))
  }

  // ------------------------------------------------------------ the time

  /** Only the first match counts: whatever follows it changes nothing. */
  lemma FirstMatchOnly(args: seq<string>, first: Match, rest: seq<Match>, now: Instant, recheck: Instant)
    ensures ParseReminder(args, Matches([first] + rest), now, recheck)
         == ParseReminder(args, Matches([first]), now, recheck)
  {
  }

  /** A matched time that is not before `now` (in particular one equal to it) is kept as it is. */
  lemma NotBeforeNowKept(args: seq<string>, first: Match, rest: seq<Match>, now: Instant, recheck: Instant)
    requires args != [] && now <= first.at
    ensures ParseReminder(args, Matches([first] + rest), now, recheck).Ready?
    ensures ParseReminder(args, Matches([first] + rest), now, recheck).runAt == first.at
  {
  }

  /**
   * A past time is moved forward by exactly one day, once: it is refused
   * when one day later is still before the second reading, even if two
   * days later would not be.
   */
  lemma RolloverOnce(args: seq<string>, first: Match, rest: seq<Match>, now: Instant, recheck: Instant)
    requires args != [] && first.at < now
    ensures var o := ParseReminder(args, Matches([first] + rest), now, recheck);
      && (o.PastTime? <==> first.at + OneDay < recheck)
      && (o.Ready? <==> recheck <= first.at + OneDay)
      && (o.Ready? ==> o.runAt == first.at + OneDay)
  {
  }

  /** Whatever instant is scheduled is never before the clock reading that accepted it. */
  lemma ScheduledNotInPast(args: seq<string>, extraction: Extraction, now: Instant, recheck: Instant)
    requires now <= recheck
    ensures var o := ParseReminder(args, extraction, now, recheck);
      o.Ready? ==> now <= o.runAt
  {
  }

  // --------------------------------------------------------- the message

  /** The reminder text never begins or ends with whitespace. */
  lemma MessageTrimmed(fullText: string, foundText: string)
    ensures var msg := ExtractMessage(fullText, foundText);
      msg == [] || (!IsSpace(msg[0]) && !IsSpace(msg[|msg| - 1]))
  {
  }

  /**
   * The reminder text is empty exactly when the stripped remainder is one
   * separator followed only by whitespace: the default is chosen before the
   * separator is removed, so it cannot rescue this case.
   */
  lemma EmptyMessageIff(fullText: string, foundText: string)
    ensures var body := Strip(RemoveAll(fullText, foundText));
      ExtractMessage(fullText, foundText) == [] <==>
        body != [] && IsSeparator(body[0]) && AllSpace(body[1..])
  {
  }

  /** The reminder text is the default or a piece of what is left after the removal. */
  lemma MessageFromText(fullText: string, foundText: string)
    ensures var msg := ExtractMessage(fullText, foundText);
      msg == DefaultMessage || IsSliceOf(msg, RemoveAll(fullText, foundText))
  {
    var rest := RemoveAll(fullText, foundText);
    var body := Strip(rest);
    if body != [] && IsSeparator(body[0]) {
      var tail := body[1..];
      assert IsSliceOf(tail, body) by { assert tail == body[1..|body|]; }
      SliceOfSlice(Strip(tail), tail, body);
      SliceOfSlice(Strip(tail), body, rest);
    }
  }

  /** Nothing left: the default text. */
  lemma EmptyRemainderGetsDefault()
    ensures Finish("") == DefaultMessage
  {
  }

  /** A lone separator: the default was already passed over, so the text is empty. */
  lemma LoneSeparatorGivesEmpty()
    ensures Finish("-") == "" && Finish(":") == ""
  {
  }

  /** Only one separator is dropped. */
  lemma OneSeparatorDropped()
    ensures Finish("--x") == "-x"
  {
  }

  /**
   * A leading separator is dropped and what follows it stripped again,
   * whatever follows it.
   */
  lemma SeparatorAndSpaceDropped(c: char, t: string)
    requires IsSeparator(c)
    ensures Finish([c] + t) == Strip(t)
  {
    assert ([c] + t)[1..] == t;
  }

  /**
   * Every copy of the time expression is removed, not only the first: a
   * text that begins and ends with it loses both.
   */
  lemma AllCopiesRemoved(foundText: string, mid: string)
    requires foundText != []
    requires forall i :: 0 <= i < |mid| ==> !OccursAt(foundText, mid + foundText, i)
    ensures RemoveAll(foundText + mid + foundText, foundText) == mid
  {
    assert foundText + mid + foundText == foundText + (mid + foundText);
    RemoveAllLeading(foundText, mid + foundText);
    RemoveAllTrailing(mid, foundText);
  }

  /**
   * The usual request, time expression first and message after: the
   * message comes back as it was written.
   */
  lemma TimeThenMessage(args: seq<string>, foundText: string, msg: string, at: Instant, rest: seq<Match>, now: Instant, recheck: Instant)
    requires args != [] && Join(args, " ") == foundText + " " + msg
    requires foundText != [] && !Occurs(foundText, " " + msg)
    requires msg != [] && !IsSpace(msg[0]) && !IsSpace(msg[|msg| - 1]) && !IsSeparator(msg[0])
    requires now <= at
    ensures ParseReminder(args, Matches([Match(foundText, at)] + rest), now, recheck) == Ready(at, msg)
  {
    assert foundText + " " + msg == foundText + (" " + msg);
    RemoveAllLeading(foundText, " " + msg);
    assert (" " + msg)[1..] == msg;
    StripTrimmed(msg);
    assert Strip(" " + msg) == msg;
  }

  /** A request that is nothing but the time expression gets the default text. */
  lemma OnlyTimeGetsDefault(args: seq<string>, foundText: string, at: Instant, rest: seq<Match>, now: Instant, recheck: Instant)
    requires args != [] && Join(args, " ") == foundText
    requires now <= at
    ensures ParseReminder(args, Matches([Match(foundText, at)] + rest), now, recheck) == Ready(at, DefaultMessage)
  {
    if foundText != [] {
      RemoveAllLeading(foundText, []);
      assert foundText + [] == foundText;
    }
  }
}
