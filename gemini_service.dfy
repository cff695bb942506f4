/*
 * The translation client: two operations that each send one request to the
 * remote generative service and normalise its reply. The service itself is
 * an oracle, a function from the request to either the reply text or a
 * failure; each operation returns the requests it sent together with its
 * outcome, so that "no call" and "exactly one call" can be stated.
 */
module GeminiService {
  import opened JsString

  const ModelName := "gemini-2.5-flash"
  const PlainText := "text/plain"

  /** The fixed instruction placed before the source text. */
  const TextInstruction := "Đóng vai trò là một chuyên gia có nhiều năm kinh nghiệm về dịch thuật, hãy dịch văn bản dưới đây sang tiếng việt một cách ngắn gọn, súc tích, tập trung vào ngữ cảnh của văn bản mà không cần nói gì thêm:"

  /** The fixed instruction sent after the image. */
  const ImageInstruction := "Đóng vai trò là một chuyên gia dịch thuật. Trích xuất bất kỳ văn bản nào từ hình ảnh này và chỉ cung cấp bản dịch tiếng Việt. Không bao gồm văn bản gốc hay bất kỳ lời giải thích nào. Nếu không có văn bản nào trong ảnh, hãy trả lời 'Không tìm thấy văn bản nào trong ảnh.'"

  /** The reply the image instruction asks for when the image holds no text. */
  const NoTextFound := "Không tìm thấy văn bản nào trong ảnh."

  /** The one error both operations fail with, whatever went wrong. */
  const ApiError := "Failed to get translation from API."

  datatype Part = InlineData(data: string, mimeType: string) | TextPart(text: string)
  datatype Contents = Prompt(text: string) | Parts(parts: seq<Part>)
  datatype Request = Request(model: string, contents: Contents, responseMimeType: string)

  /** What the remote service answers: the response text, or a failure of
      any kind (transport, authentication, service, missing text). */
  datatype Reply = Ok(text: string) | Fail

  /** A resolved or rejected promise of a string. */
  datatype Outcome = Success(value: string) | Failure(message: string)

  /** The requests an operation sent, in order, and how it ended. */
  datatype Exchange = Exchange(sent: seq<Request>, outcome: Outcome)

  /** A normalised translation: no asterisk, no whitespace at either end. */
  predicate IsClean(t: string) {
    '*' !in t && NoEdgeWhitespace(t)
  }

  /** cleanTranslation: delete every '*', then trim. */
  function CleanTranslation(text: string): (r: string)
    ensures IsClean(r)
  {
    Trim(RemoveAll(text, '*'))
  }

  /** Only the asterisks and the whitespace then at the ends are dropped:
      the result is a contiguous run of the star-free text with nothing but
      whitespace around it. */
  lemma CleanTranslationKeepsTheRest(text: string)
    ensures exists i, j :: 0 <= i <= j <= |RemoveAll(text, '*')|
              && CleanTranslation(text) == RemoveAll(text, '*')[i..j]
              && AllWhitespace(RemoveAll(text, '*')[..i])
              && AllWhitespace(RemoveAll(text, '*')[j..])
  {
    var u := RemoveAll(text, '*');
    var i, j := TrimBounds(u);
    assert CleanTranslation(text) == u[i..j];
  }

  /** Conversely, the clean run inside the star-free text is the result:
      with CleanTranslationKeepsTheRest this pins CleanTranslation down. */
  lemma CleanTranslationUnique(text: string, w1: string, t: string, w2: string)
    requires RemoveAll(text, '*') == w1 + t + w2
    requires AllWhitespace(w1) && AllWhitespace(w2) && NoEdgeWhitespace(t)
    ensures CleanTranslation(text) == t
  {
    TrimExact(w1, t, w2);
  }

  /** A reply that is already clean is shown verbatim. */
  lemma CleanTranslationOfClean(t: string)
    requires IsClean(t)
    ensures CleanTranslation(t) == t
  {
    RemoveAllAbsent(t, '*');
    TrimOfTrimmed(t);
  }

  lemma CleanTranslationIdempotent(text: string)
    ensures CleanTranslation(CleanTranslation(text)) == CleanTranslation(text)
  {
    CleanTranslationOfClean(CleanTranslation(text));
  }

  /** Asterisks around a clean translation, and whitespace around those,
      all disappear. */
  lemma {:induction false} CleanTranslationOfEmphasised(w1: string, t: string, w2: string)
    requires AllWhitespace(w1) && AllWhitespace(w2) && '*' !in w1 && '*' !in w2
    requires IsClean(t)
    ensures CleanTranslation(w1 + "*" + t + "*" + w2) == t
  {
    var star: string := ['*'];
    var s := w1 + star + t + star + w2;
    assert RemoveAll(star, '*') == [] by {
      assert star[1..] == [];
    }
    RemoveAllAbsent(w1, '*');
    RemoveAllAbsent(w2, '*');
    RemoveAllAbsent(t, '*');
    RemoveAllAppend(w1, star, '*');
    var a := w1 + star;
    assert RemoveAll(a, '*') == w1;
    RemoveAllAppend(a, t, '*');
    var b := a + t;
    assert RemoveAll(b, '*') == w1 + t;
    RemoveAllAppend(b, star, '*');
    var d := b + star;
    assert RemoveAll(d, '*') == w1 + t;
    RemoveAllAppend(d, w2, '*');
    assert s == d + w2;
    assert RemoveAll(s, '*') == w1 + t + w2;
    CleanTranslationUnique(s, w1, t, w2);
  }

  /** Stripping comes before trimming, so whitespace that only becomes
      outer once the asterisks are gone is trimmed too. */
  lemma CleanTranslationStripsBeforeTrimming()
    ensures CleanTranslation(" *Xin chào* ") == "Xin chào"
  {
    var t := "Xin chào";
    assert IsClean(t) by { assert forall k :: 0 <= k < |t| ==> t[k] != '*'; }
    assert " *Xin chào* " == " " + "*" + t + "*" + " ";
    CleanTranslationOfEmphasised(" ", t, " ");
  }

  /** The prompt: the fixed instruction, a blank line, then the source text
      exactly as typed (not trimmed), recoverable from the prompt. */
  function TextPrompt(text: string): (p: string)
    ensures |p| == |TextInstruction| + 2 + |text|
    ensures p[..|TextInstruction|] == TextInstruction
    ensures p[|TextInstruction|..|TextInstruction| + 2] == "\n\n"
    ensures p[|TextInstruction| + 2..] == text
  {
    TextInstruction + "\n\n" + text
  }

  function TextRequest(text: string): Request {
    Request(ModelName, Prompt(TextPrompt(text)), PlainText)
  }

  /** The image goes first, the instruction second. */
  function ImageRequest(base64Image: string, mimeType: string): Request {
    Request(ModelName, Parts([InlineData(base64Image, mimeType), TextPart(ImageInstruction)]), PlainText)
  }

  /** The shared tail of both operations: a reply is cleaned, and every
      failure becomes the one fixed error. */
  function Settle(reply: Reply): (o: Outcome)
    ensures o.Success? <==> reply.Ok?
    ensures reply.Ok? ==> o == Success(CleanTranslation(reply.text))
    ensures o.Success? ==> IsClean(o.value)
    ensures o.Failure? ==> o.message == ApiError
  {
    match reply
    case Ok(t) => Success(CleanTranslation(t))
    case Fail => Failure(ApiError)
  }

  /** translateText: blank input short-circuits to "" without a call;
      otherwise exactly one request, carrying the untrimmed text, and the
      cleaned reply or the fixed error. */
  function TranslateText(text: string, generate: Request -> Reply): (x: Exchange)
    ensures x.sent == [] <==> IsBlank(text)
    ensures IsBlank(text) ==> x.outcome == Success("")
    ensures !IsBlank(text) ==> x.sent == [TextRequest(text)]
    ensures x.outcome.Failure? <==> x.sent != [] && generate(x.sent[0]).Fail?
    ensures x.outcome.Failure? ==> x.outcome.message == ApiError
    ensures x.sent != [] && generate(x.sent[0]).Ok? ==>
              x.outcome == Success(CleanTranslation(generate(x.sent[0]).text))
  {
    if IsBlank(text) then
      Exchange([], Success(""))
    else
      var request := TextRequest(text);
      Exchange([request], Settle(generate(request)))
  }

  /** translateImage: always exactly one request, image part then
      instruction part, and the cleaned reply or the fixed error. */
  function TranslateImage(base64Image: string, mimeType: string, generate: Request -> Reply): (x: Exchange)
    ensures |x.sent| == 1
    ensures x.sent[0].contents == Parts([InlineData(base64Image, mimeType), TextPart(ImageInstruction)])
    ensures x.sent[0].model == ModelName && x.sent[0].responseMimeType == PlainText
    ensures x.outcome.Failure? <==> generate(x.sent[0]).Fail?
    ensures x.outcome.Failure? ==> x.outcome.message == ApiError
    ensures generate(x.sent[0]).Ok? ==>
              x.outcome == Success(CleanTranslation(generate(x.sent[0]).text))
  {
    var request := ImageRequest(base64Image, mimeType);
    Exchange([request], Settle(generate(request)))
  }

  /** Whatever either operation resolves with is a clean string. */
  lemma TranslationsAreClean(text: string, base64Image: string, mimeType: string, generate: Request -> Reply)
    ensures TranslateText(text, generate).outcome.Success? ==>
              IsClean(TranslateText(text, generate).outcome.value)
    ensures TranslateImage(base64Image, mimeType, generate).outcome.Success? ==>
              IsClean(TranslateImage(base64Image, mimeType, generate).outcome.value)
  {
    if IsBlank(text) {
      assert IsClean("");
    }
  }

  /** A reply with emphasis markers around the translation is shown
      without them. */
  lemma TextScenarioStripsEmphasis(generate: Request -> Reply)
    requires generate(TextRequest("Hello world")) == Ok("*Xin chào thế giới*")
    ensures TranslateText("Hello world", generate).outcome == Success("Xin chào thế giới")
  {
    HelloWorldIsNotBlank();
    CleanTranslationStripsEmphasis();
  }

  lemma HelloWorldIsNotBlank()
    ensures !IsBlank("Hello world")
  {
    assert !IsWhitespace("Hello world"[0]);
  }

  lemma CleanTranslationStripsEmphasis()
    ensures CleanTranslation("*Xin chào thế giới*") == "Xin chào thế giới"
  {
    var t := "Xin chào thế giới";
    assert IsClean(t) by { assert forall k :: 0 <= k < |t| ==> t[k] != '*'; }
    assert "*Xin chào thế giới*" == "" + "*" + t + "*" + "";
    CleanTranslationOfEmphasised("", t, "");
  }

  /** The "no text found" answer to an image is shown verbatim. */
  lemma ImageScenarioNoTextFound(base64Image: string, mimeType: string, generate: Request -> Reply)
    requires generate(ImageRequest(base64Image, mimeType)) == Ok(NoTextFound)
    ensures TranslateImage(base64Image, mimeType, generate).outcome == Success(NoTextFound)
  {
    assert '*' !in NoTextFound;
    CleanTranslationOfClean(NoTextFound);
  }
}
