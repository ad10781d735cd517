/**
 * The post-creation form: the shared length schema for tweet text and the
 * form's `text` / `error` state with its submit and success transitions.
 */
module CreateTweet {
  import opened Common

  /** Bounds of `tweetSchema`: `.min(10)` and `.max(280)` on the text. */
  const MinLength: nat := 10
  const MaxLength: nat := 280

  /** The issue the schema reports for a text it rejects. */
  datatype SchemaError = TooShort | TooLong

  /**
   * `tweetSchema.parse({ text })`: `None` when the text is accepted, otherwise
   * the issue that makes parsing throw. `|text|` counts Unicode scalar
   * values; the schema counts UTF-16 code units, which agree with it only
   * for texts without characters above U+FFFF.
   */
  function ParseTweet(text: string): (r: Option<SchemaError>)
    ensures r == None <==> MinLength <= |text| <= MaxLength
    ensures r == Some(TooShort) <==> |text| < MinLength
    ensures r == Some(TooLong) <==> MaxLength < |text|
  {
    if |text| < MinLength then Some(TooShort)
    else if |text| > MaxLength then Some(TooLong)
    else None
  }

  predicate Accepts(text: string)
  {
    ParseTweet(text).None?
  }

  /** The form starts with an empty text, and the schema rejects it as too short. */
  lemma InitialTextRejected()
    ensures ParseTweet("") == Some(TooShort)
    ensures !Accepts("")
  {
  }

  /**
   * The state of one mounted form. `sent` records the texts handed to the
   * create mutation, in order; `invalidations` counts how often the timeline
   * query was invalidated.
   */
  class CreateTweetForm {
    var text: string
    var error: Option<SchemaError>
    var sent: seq<string>
    var invalidations: nat

    /** Every text the form has sent passed the schema first. */
    ghost predicate Valid()
      reads this
    {
      forall i :: 0 <= i < |sent| ==> Accepts(sent[i])
    }

    /** `useState("")` and `useState(null)`: nothing typed, no error, nothing sent. */
    constructor ()
      ensures Valid()
      ensures text == "" && error == None && sent == [] && invalidations == 0
      ensures !Accepts(text)
    {
      text := "";
      error := None;
      sent := [];
      invalidations := 0;
    }

    /** The textarea's change handler stores the typed value. */
    method Change(value: string)
      requires Valid()
      modifies this
      ensures Valid()
      ensures text == value
      ensures error == old(error) && sent == old(sent) && invalidations == old(invalidations)
    {
      text := value;
    }

    /**
     * `handleSubmit`: validate the current text; on failure record the error and
     * return without sending; on success send exactly the current text. A
     * previous error is left in place on success.
     */
    method HandleSubmit() returns (didSend: bool)
      requires Valid()
      modifies this
      ensures Valid()
      ensures didSend <==> Accepts(old(text))
      ensures !didSend ==> error == ParseTweet(old(text)) && sent == old(sent)
      ensures didSend ==> error == old(error) && sent == old(sent) + [old(text)]
      ensures text == old(text) && invalidations == old(invalidations)
    {
      var issue := ParseTweet(text);
      if issue.Some? {
        error := issue;
        didSend := false;
        return;
      }
      sent := sent + [text];
      didSend := true;
    }

    /** The create mutation's `onSuccess`: clear the text and invalidate the timeline. */
    method OnSuccess()
      requires Valid()
      modifies this
      ensures Valid()
      ensures text == "" && !Accepts(text)
      ensures invalidations == old(invalidations) + 1
      ensures error == old(error) && sent == old(sent)
    {
      text := "";
      invalidations := invalidations + 1;
    }
  }
}
