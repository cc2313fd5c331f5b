/**
 * The reply to a shell command run from the chat (`/term`, and the same
 * text for a command suggested by the language model): what the command
 * printed on standard output and on standard error, each cut to a fixed
 * length, or a fixed message when it printed nothing.
 */
module Term {
  import opened Text

  /** At most this many characters of standard output are shown. */
  const StdoutLimit: nat := 3000
  /** At most this many characters of standard error are shown. */
  const StderrLimit: nat := 1000
  /** Telegram's limit on the length of one text message. */
  const TelegramLimit: nat := 4096

  const NoOutputReply: string := "\U{2705} Komut çalıştı (Çıktı yok)."
  const StdoutHead: string := "\U{1F4C4} **Çıktı:**\n```\n"
  const StderrHead: string := "\n\U{26A0}\U{FE0F} **Hata:**\n```\n"
  const BlockEnd: string := "\n```"

  /** The standard-output section: a code block holding the first characters of `output`. */
  function StdoutSection(output: string): (r: string)
    ensures |r| <= |StdoutHead| + StdoutLimit + |BlockEnd|
    ensures output != [] ==> |r| > |StdoutHead| + |BlockEnd|
  {
    StdoutHead + Take(output, StdoutLimit) + BlockEnd
  }

  /** The standard-error section: a code block holding the first characters of `error`. */
  function StderrSection(error: string): (r: string)
    ensures |r| <= |StderrHead| + StderrLimit + |BlockEnd|
    ensures error != [] ==> |r| > |StderrHead| + |BlockEnd|
  {
    StderrHead + Take(error, StderrLimit) + BlockEnd
  }

  /**
   * Lines 391-398: the reply starts empty, gains the standard-output
   * section when there was output and the standard-error section when
   * there were errors, and falls back to the fixed message when it is
   * still empty. It is never empty and always fits one Telegram message.
   */
  method ComposeReply(output: string, error: string) returns (response: string)
    ensures output == [] && error == [] ==> response == NoOutputReply
    ensures output != [] && error == [] ==> response == StdoutSection(output)
    ensures output == [] && error != [] ==> response == StderrSection(error)
    ensures output != [] && error != [] ==> response == StdoutSection(output) + StderrSection(error)
    ensures response != []
    ensures |response| <= TelegramLimit
  {
    response := "";
    if output != [] {
      response := response + StdoutSection(output);
    }
    if error != [] {
      response := response + StderrSection(error);
    }
    if response == [] {
      response := NoOutputReply;
    }
  }

  /**
   * The output section shows exactly the first `StdoutLimit` characters of
   * the output (all of it when shorter), between a fixed head and end.
   */
  lemma StdoutSectionShowsPrefix(output: string)
    ensures var shown := if |output| < StdoutLimit then output else output[..StdoutLimit];
      StdoutSection(output) == StdoutHead + shown + BlockEnd
  {
  }

  /** The error section shows exactly the first `StderrLimit` characters of the errors. */
  lemma StderrSectionShowsPrefix(error: string)
    ensures var shown := if |error| < StderrLimit then error else error[..StderrLimit];
      StderrSection(error) == StderrHead + shown + BlockEnd
  {
  }

  /** Output beyond the limit never reaches the reply: two outputs that agree on their first characters give the same reply. */
  lemma OnlyPrefixMatters(out1: string, out2: string)
    requires |out1| >= StdoutLimit && |out2| >= StdoutLimit
    requires out1[..StdoutLimit] == out2[..StdoutLimit]
    ensures StdoutSection(out1) == StdoutSection(out2)
  {
  }
}
