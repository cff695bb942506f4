/*
 * The text screen's controller: the cells inputText, translation, error and
 * isLoading, the textarea's change handler, the submit handler and the
 * guard that enables the submit button. The submit handler runs in two
 * parts: Begin is everything up to the await on the translation client,
 * Complete is the success, catch and finally branches after it.
 */
module TextTranslator {
  import opened Wrappers
  import opened JsString
  import opened GeminiService

  const BlankInputError := "Vui lòng nhập văn bản cần dịch."
  const TranslateError := "Đã xảy ra lỗi khi dịch văn bản. Vui lòng thử lại."

  class Controller {
    var inputText: string
    var translation: string
    var error: string
    var isLoading: bool

    constructor ()
      ensures inputText == "" && translation == "" && error == "" && !isLoading
    {
      inputText, translation, error, isLoading := "", "", "", false;
    }

    /** The submit button is enabled: nothing in flight and the trimmed
        input is not empty. */
    function SubmitEnabled(): (enabled: bool)
      reads this
      ensures enabled <==> !isLoading && Trim(inputText) != []
    {
      BlankIffTrimEmpty(inputText);
      !isLoading && !IsBlank(inputText)
    }

    /** A translation is in flight, with the previous result and error cleared. */
    predicate Awaiting()
      reads this
    {
      isLoading && error == "" && translation == ""
    }

    /** The textarea's change handler. */
    method Edit(value: string)
      modifies this
      ensures inputText == value
      ensures translation == old(translation) && error == old(error) && isLoading == old(isLoading)
    {
      inputText := value;
    }

    /** handleTranslate up to the await. Returns the text handed to the
        translation client, if any. */
    method Begin() returns (call: Option<string>)
      modifies this
      ensures inputText == old(inputText)
      ensures IsBlank(inputText) ==>
                call == None && error == BlankInputError
                && translation == old(translation) && isLoading == old(isLoading)
      ensures !IsBlank(inputText) ==> call == Some(inputText) && Awaiting() && !SubmitEnabled()
    {
      var blank := IsBlank(inputText);
      if blank {
        error := BlankInputError;
        call := None;
      } else {
        isLoading := true;
        error := "";
        translation := "";
        call := Some(inputText);
      }
    }

    /** handleTranslate after the await: the try, catch and finally branches. */
    method Complete(outcome: Outcome)
      modifies this
      ensures inputText == old(inputText) && !isLoading
      ensures outcome.Success? ==> translation == outcome.value && error == old(error)
      ensures outcome.Failure? ==> translation == old(translation) && error == TranslateError
    {
      if outcome.Success? {
        translation := outcome.value;
      } else {
        error := TranslateError;
      }
      isLoading := false;
    }

    /** One click on the submit button, run to its end: blank input is
        refused locally; otherwise one request carrying the untrimmed input,
        and the screen shows the cleaned reply or the fixed message. */
    method Submit(generate: Request -> Reply) returns (sent: seq<Request>)
      modifies this
      ensures inputText == old(inputText)
      ensures IsBlank(inputText) ==>
                sent == [] && error == BlankInputError
                && translation == old(translation) && isLoading == old(isLoading)
      ensures !IsBlank(inputText) ==> sent == [TextRequest(inputText)] && !isLoading
      ensures !IsBlank(inputText) && generate(TextRequest(inputText)).Ok? ==>
                translation == CleanTranslation(generate(TextRequest(inputText)).text) && error == ""
      ensures !IsBlank(inputText) && generate(TextRequest(inputText)).Fail? ==>
                translation == "" && error == TranslateError
    {
      var call := Begin();
      if call.Some? {
        var exchange := TranslateText(call.value, generate);
        sent := exchange.sent;
        Complete(exchange.outcome);
      } else {
        sent := [];
      }
    }
  }
}
