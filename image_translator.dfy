/*
 * The image screen: the data-URL header parse that fileToBase64 runs on
 * the reader's result, the encode-then-translate chain, and the controller
 * with the cells imageFile, translation, error and isLoading. The browser's
 * FileReader is not modelled: its result (the data URL, or a read error)
 * is a parameter.
 */
module ImageTranslator {
  import opened Wrappers
  import opened JsString
  import opened GeminiService

  const ParseError := "Failed to parse file data."
  const NoImageError := "Vui lòng chọn một ảnh để dịch."
  const TranslateError := "Đã xảy ra lỗi khi dịch ảnh. Vui lòng thử lại."

  /** What the reader's onload handler does with the data URL: resolve with
      the payload and media type, reject, or throw because the header has
      no ':' (`meta.split(':')[1]` is undefined). */
  datatype Parse = Parsed(base64: string, mimeType: string) | Rejected | Threw

  /** The parse in fileToBase64: `[meta, base64] = result.split(',')`, then
      `meta.split(':')[1].split(';')[0]`, kept only when both are non-empty. */
  function ParseDataUrl(result: string): (p: Parse)
    ensures p.Parsed? ==> p.base64 != [] && p.mimeType != []
    ensures p.Parsed? ==> ',' !in p.base64 && ';' !in p.mimeType
  {
    var fields := Split(result, ',');
    var meta := fields[0];
    var metaFields := Split(meta, ':');
    if |metaFields| < 2 then
      Threw
    else
      var mimeType := Split(metaFields[1], ';')[0];
      if |fields| >= 2 && fields[1] != [] && mimeType != [] then
        Parsed(fields[1], mimeType)
      else
        Rejected
  }

  /** The same parse read off first positions: the header is the text
      before the first ','; the media type follows the header's first ':'
      and stops at the next ':' or ';'; the payload lies between the first
      and second ','. */
  function ParseByPosition(s: string): Parse {
    var header := Before(s, ',');
    if ':' !in header then
      Threw
    else
      var mimeType := Before(Before(After(header, ':'), ':'), ';');
      var payload := Before(After(s, ','), ',');
      if ',' in s && payload != [] && mimeType != [] then Parsed(payload, mimeType) else Rejected
  }

  /** The split-based parse and the position-based one agree everywhere. */
  lemma ParseDataUrlByPosition(s: string)
    ensures ParseDataUrl(s) == ParseByPosition(s)
  {
    var header := Before(s, ',');
    SplitByIndex(s, ',');
    FirstPiece(s, ',');
    SplitByIndex(header, ':');
    if ':' in header {
      var rest := After(header, ':');
      FirstPiece(rest, ':');
      FirstPiece(Before(rest, ':'), ';');
      if ',' in s {
        FirstPiece(After(s, ','), ',');
      }
    }
  }

  /** The parse throws exactly when the header has no ':'. */
  lemma ParseThrowsIffNoColon(s: string)
    ensures ParseDataUrl(s).Threw? <==> ':' !in Before(s, ',')
  {
    ParseDataUrlByPosition(s);
  }

  /** A header with a ':' but no ',' after it is rejected, not thrown. */
  lemma ParseRejectsMissingPayload(s: string)
    requires ',' !in s && ':' in s
    ensures ParseDataUrl(s) == Rejected
  {
    ParseDataUrlByPosition(s);
    assert Before(s, ',') == s;
  }

  /** The data URL FileReader.readAsDataURL produces, in the form of
      section 3 of RFC 2397. */
  function FormatDataUrl(mimeType: string, base64: string): string {
    "data:" + mimeType + ";base64," + base64
  }

  /** The two comma-separated fields the parse looks at, when the text is
      a header, ',', a payload, and possibly more fields. */
  lemma CommaFields(meta: string, base64: string, tail: string)
    requires ',' !in meta && ',' !in base64
    requires tail == [] || tail[0] == ','
    ensures var fields := Split(meta + [','] + base64 + tail, ',');
            |fields| >= 2 && fields[0] == meta && fields[1] == base64
  {
    assert meta + [','] + base64 + tail == meta + [','] + (base64 + tail);
    SplitAtFirst(meta, base64 + tail, ',');
    SplitFirstPiece(base64, tail, ',');
  }

  /** The media type the parse reads from a header `scheme:type;params`. */
  lemma HeaderMediaType(scheme: string, mimeType: string, params: string)
    requires ':' !in scheme && ':' !in mimeType && ':' !in params
    requires ';' !in mimeType && (params == [] || params[0] == ';')
    ensures var metaFields := Split(scheme + [':'] + (mimeType + params), ':');
            |metaFields| >= 2 && Split(metaFields[1], ';')[0] == mimeType
  {
    assert ':' !in mimeType + params;
    SplitTwo(scheme, mimeType + params, ':');
    SplitFirstPiece(mimeType, params, ';');
  }

  /** Reading back what was formatted: the parse recovers the media type
      and the payload, whatever follows a further ','. */
  lemma ParseFormatted(mimeType: string, base64: string, tail: string)
    requires mimeType != [] && ',' !in mimeType && ':' !in mimeType && ';' !in mimeType
    requires base64 != [] && ',' !in base64
    requires tail == [] || tail[0] == ','
    ensures ParseDataUrl(FormatDataUrl(mimeType, base64) + tail) == Parsed(base64, mimeType)
  {
    var scheme, params := "data", ";base64";
    var meta := scheme + [':'] + (mimeType + params);
    assert FormatDataUrl(mimeType, base64) + tail == meta + [','] + base64 + tail;
    CommaFields(meta, base64, tail);
    HeaderMediaType(scheme, mimeType, params);
  }

  /** An empty media type is rejected even with a payload. */
  lemma ParseRejectsEmptyMediaType(base64: string)
    requires ',' !in base64
    ensures ParseDataUrl(FormatDataUrl("", base64)) == Rejected
  {
    var scheme, params := "data", ";base64";
    var meta := scheme + [':'] + ([] + params);
    assert FormatDataUrl("", base64) == meta + [','] + base64 + [];
    CommaFields(meta, base64, []);
    HeaderMediaType(scheme, [], params);
  }

  /** What the browser's FileReader hands back: onload with its result, or
      onerror with an error. */
  datatype ReadResult = Loaded(dataUrl: string) | ReadFailed(message: string)

  /** How fileToBase64's promise ends: resolved, rejected, or never settled
      (the onload handler threw, which rejects nothing). */
  datatype Encoding = Encoded(base64: string, mimeType: string) | EncodeFailed(message: string) | NeverSettles

  function FileToBase64(read: ReadResult): (e: Encoding)
    ensures e.Encoded? <==> read.Loaded? && ParseDataUrl(read.dataUrl).Parsed?
    ensures e.Encoded? ==> ParseDataUrl(read.dataUrl) == Parsed(e.base64, e.mimeType)
    ensures e.Encoded? ==> e.base64 != [] && e.mimeType != []
    ensures read.ReadFailed? ==> e == EncodeFailed(read.message)
    ensures e.NeverSettles? <==> read.Loaded? && ParseDataUrl(read.dataUrl).Threw?
    ensures read.Loaded? && e.EncodeFailed? ==> e.message == ParseError
  {
    match read
    case ReadFailed(message) => EncodeFailed(message)
    case Loaded(dataUrl) =>
      match ParseDataUrl(dataUrl)
      case Parsed(base64, mimeType) => Encoded(base64, mimeType)
      case Rejected => EncodeFailed(ParseError)
      case Threw => NeverSettles
  }

  /** The requests sent by the encode-then-translate chain, and its outcome
      once it settles (None: it never does). */
  datatype Attempt = Attempt(sent: seq<Request>, settled: Option<Outcome>)

  /** The awaited part of handleTranslate's try block: encode, and only
      after a successful encode, translate. */
  function EncodeAndTranslate(read: ReadResult, generate: Request -> Reply): (a: Attempt)
    ensures |a.sent| <= 1
    ensures a.sent != [] <==> FileToBase64(read).Encoded?
    ensures a.sent != [] ==>
              a.sent[0] == ImageRequest(FileToBase64(read).base64, FileToBase64(read).mimeType)
    ensures a.settled == None <==> FileToBase64(read).NeverSettles?
    ensures FileToBase64(read).Encoded? ==>
              a.settled == Some(TranslateImage(FileToBase64(read).base64, FileToBase64(read).mimeType, generate).outcome)
    ensures FileToBase64(read).EncodeFailed? ==> a.settled == Some(Failure(FileToBase64(read).message))
    ensures a.sent != [] && generate(a.sent[0]).Ok? ==>
              a.settled == Some(Success(CleanTranslation(generate(a.sent[0]).text)))
    ensures a.settled.Some? && a.settled.value.Success? ==>
              a.sent != [] && generate(a.sent[0]).Ok? && IsClean(a.settled.value.value)
  {
    match FileToBase64(read)
    case Encoded(base64, mimeType) =>
      var exchange := TranslateImage(base64, mimeType, generate);
      Attempt(exchange.sent, Some(exchange.outcome))
    case EncodeFailed(message) => Attempt([], Some(Failure(message)))
    case NeverSettles => Attempt([], None)
  }

  /** A file the user picked; its content reaches the model only through
      the reader's result. */
  datatype ImageFile = ImageFile(name: string)

  class Controller {
    var imageFile: Option<ImageFile>
    var translation: string
    var error: string
    var isLoading: bool

    constructor ()
      ensures imageFile == None && translation == "" && error == "" && !isLoading
    {
      imageFile, translation, error, isLoading := None, "", "", false;
    }

    /** The submit button is enabled: nothing in flight and a file chosen. */
    function SubmitEnabled(): (enabled: bool)
      reads this
      ensures enabled <==> !isLoading && imageFile != None
    {
      !isLoading && imageFile.Some?
    }

    /** A translation is in flight, with the previous result and error cleared. */
    predicate Awaiting()
      reads this
    {
      isLoading && error == "" && translation == ""
    }

    /** handleFileChange: the first selected file replaces the current one
        and clears the shown result and error; an empty selection changes
        nothing. */
    method HandleFileChange(files: seq<ImageFile>)
      modifies this
      ensures isLoading == old(isLoading)
      ensures files == [] ==>
                imageFile == old(imageFile) && translation == old(translation) && error == old(error)
      ensures files != [] ==> imageFile == Some(files[0]) && translation == "" && error == ""
    {
      if files != [] {
        imageFile := Some(files[0]);
        translation := "";
        error := "";
      }
    }

    /** handleTranslate up to the first await. Returns the file handed to
        fileToBase64, if any. */
    method Begin() returns (file: Option<ImageFile>)
      modifies this
      ensures imageFile == old(imageFile)
      ensures imageFile == None ==>
                file == None && error == NoImageError
                && translation == old(translation) && isLoading == old(isLoading)
      ensures imageFile != None ==> file == imageFile && Awaiting() && !SubmitEnabled()
    {
      if imageFile == None {
        error := NoImageError;
        return None;
      }
      isLoading := true;
      error := "";
      translation := "";
      file := imageFile;
    }

    /** handleTranslate once the chain settles: the try, catch and finally
        branches. A read, parse or service failure all show the same
        message. */
    method Complete(outcome: Outcome)
      modifies this
      ensures imageFile == old(imageFile) && !isLoading
      ensures outcome.Success? ==> translation == outcome.value && error == old(error)
      ensures outcome.Failure? ==> translation == old(translation) && error == TranslateError
    {
      if outcome.Success? {
        translation := outcome.value;
      } else {
        error := TranslateError;
      }
      isLoading := false;
    }

    /** One click on the submit button, run as far as it goes; `read` is
        what the reader produces for the chosen file. */
    method Submit(read: ReadResult, generate: Request -> Reply) returns (sent: seq<Request>)
      modifies this
      ensures imageFile == old(imageFile)
      ensures imageFile == None ==>
                sent == [] && error == NoImageError
                && translation == old(translation) && isLoading == old(isLoading)
      ensures imageFile != None ==> sent == EncodeAndTranslate(read, generate).sent
      ensures imageFile != None && EncodeAndTranslate(read, generate).settled == None ==> Awaiting()
      ensures imageFile != None && EncodeAndTranslate(read, generate).settled.Some? ==>
                !isLoading &&
                match EncodeAndTranslate(read, generate).settled.value
                case Success(text) => translation == text && error == ""
                case Failure(_) => translation == "" && error == TranslateError
    {
      var file := Begin();
      if file == None {
        return [];
      }
      var attempt := EncodeAndTranslate(read, generate);
      sent := attempt.sent;
      if attempt.settled.Some? {
        Complete(attempt.settled.value);
      }
    }
  }
}
