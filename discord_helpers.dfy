/**
 * utils/discord_helpers.py: the user-facing message for an error string, chosen by the
 * first of three substring tests that matches.
 */
module DiscordHelpers {
  import opened PyBuiltins
  import opened HebrewConstants

  /** Every error message opens with a cross mark and a space. */
  const ErrorMark: string := "❌ "
  const TooLongReply: string := "Text is too long! " + "Please keep it under 500 characters."
  /** The sample command both requests for text end with. */
  const Example: string := "Example: `/vowelize שלום עולם`"
  const NeedHebrewReply: string := "Please provide Hebrew text. " + Example
  const NeedTextReply: string := "Please provide some text. " + Example
  const Apology: string := "Sorry, " + "there was an issue processing your text: "

  /** format_error_message. Logging the unrecognised error is left out. */
  function FormatErrorMessage(error: string): (r: string)
    ensures StartsWith(r, ErrorMark)
  {
    ErrorMark +
      if Contains(error, "maximum length") then TooLongReply
      else if Contains(error, "must contain Hebrew") then NeedHebrewReply
      else if Contains(error, "empty") then NeedTextReply
      else Apology + error
  }

  /**
   * The routing of format_error_message, both ways: each fixed reply is given exactly when
   * its test is the first that matches, and an error no test matches is quoted in full
   * after the apology.
   */
  lemma FormatErrorRouting(error: string)
    ensures var r := FormatErrorMessage(error);
      && (r == ErrorMark + TooLongReply <==> Contains(error, "maximum length"))
      && (r == ErrorMark + NeedHebrewReply <==>
            !Contains(error, "maximum length") && Contains(error, "must contain Hebrew"))
      && (r == ErrorMark + NeedTextReply <==>
            !Contains(error, "maximum length") && !Contains(error, "must contain Hebrew") && Contains(error, "empty"))
      && (r == ErrorMark + Apology + error <==>
            !Contains(error, "maximum length") && !Contains(error, "must contain Hebrew") && !Contains(error, "empty"))
  {
    ReplyHeads();
    assert (Apology + error)[0] == Apology[0];
    RepliesDiffer(TooLongReply, NeedHebrewReply, 0);
    RepliesDiffer(TooLongReply, NeedTextReply, 0);
    RepliesDiffer(TooLongReply, Apology + error, 0);
    RepliesDiffer(NeedHebrewReply, NeedTextReply, 15);
    RepliesDiffer(NeedHebrewReply, Apology + error, 0);
    RepliesDiffer(NeedTextReply, Apology + error, 0);
  }

  /** Where the fixed replies first differ from one another. */
  lemma ReplyHeads()
    ensures TooLongReply[0] == 'T' && NeedHebrewReply[0] == 'P' && NeedTextReply[0] == 'P' && Apology[0] == 'S'
    ensures NeedHebrewReply[15] == 'H' && NeedTextReply[15] == 's'
  {
  }

  /** Replies that differ somewhere give different messages. */
  lemma RepliesDiffer(x: string, y: string, i: nat)
    requires i < |x| && i < |y| && x[i] != y[i]
    ensures ErrorMark + x != ErrorMark + y && ErrorMark + y != ErrorMark + x
  {
    assert (ErrorMark + x)[|ErrorMark| + i] == x[i];
    assert (ErrorMark + y)[|ErrorMark| + i] == y[i];
  }

  /** The too-long message is answered with the too-long reply. */
  lemma TooLongRouted()
    ensures FormatErrorMessage(TextTooLongMessage) == ErrorMark + TooLongReply
  {
    assert StartsWith(TextTooLongMessage[13..], "maximum length");
  }

  /** The Hebrew-required message is answered with the Hebrew-wanted reply. */
  lemma NonHebrewRouted()
    ensures FormatErrorMessage(NonHebrewMessage) == ErrorMark + NeedHebrewReply
  {
    MissingCharNotContained(NonHebrewMessage, "maximum length", 11);
    assert StartsWith(NonHebrewMessage[5..], "must contain Hebrew");
  }

  /** The empty-text message is answered with the text-wanted reply. */
  lemma EmptyRouted()
    ensures FormatErrorMessage(EmptyTextMessage) == ErrorMark + NeedTextReply
  {
    MissingCharNotContained(EmptyTextMessage, "maximum length", 11);
    MissingCharNotContained(EmptyTextMessage, "must contain Hebrew", 13);
    assert StartsWith(EmptyTextMessage[15..], "empty");
  }

  /**
   * The three validation messages get three different replies: too long, Hebrew wanted,
   * text wanted.
   */
  lemma ValidationMessagesRouted()
    ensures FormatErrorMessage(TextTooLongMessage) == ErrorMark + TooLongReply
    ensures FormatErrorMessage(NonHebrewMessage) == ErrorMark + NeedHebrewReply
    ensures FormatErrorMessage(EmptyTextMessage) == ErrorMark + NeedTextReply
    ensures TooLongReply != NeedHebrewReply && NeedHebrewReply != NeedTextReply && TooLongReply != NeedTextReply
  {
    TooLongRouted();
    NonHebrewRouted();
    EmptyRouted();
    ReplyHeads();
  }

  /**
   * A reply that is built but too long to fit the response record comes back as a
   * processing error; since that error quotes the length message, the user is told the
   * text is too long rather than shown the processing error.
   */
  lemma OversizedReplyRoutedAsTooLong()
    ensures FormatErrorMessage(ProcessingError(TextTooLongMessage)) == ErrorMark + TooLongReply
  {
    var e := ProcessingError(TextTooLongMessage);
    assert StartsWith(e[31..], "maximum length");
  }
}
