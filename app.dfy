/*
 * The presentation shell: one cell holding the translation mode, the two
 * handlers that overwrite it, and the selection of the screen to show.
 */
module App {

  /** TranslationMode. */
  datatype Mode = Select | Image | Text

  datatype Screen = SelectionScreen | ImageScreen | TextScreen

  /** renderContent: each translation mode shows its own screen, and the
      selection mode (the switch's default) shows the selection screen. */
  function RenderContent(mode: Mode): (screen: Screen)
    ensures screen == ImageScreen <==> mode == Image
    ensures screen == TextScreen <==> mode == Text
    ensures screen == SelectionScreen <==> mode == Select
  {
    match mode
    case Image => ImageScreen
    case Text => TextScreen
    case Select => SelectionScreen
  }

  /** The title header is shown exactly while the selection screen is. */
  function HeaderShown(mode: Mode): (shown: bool)
    ensures shown <==> RenderContent(mode) == SelectionScreen
  {
    mode == Select
  }

  /** The two cards of the selection screen. */
  datatype Card = ImageCard | TextCard

  /** The mode a card's click handler selects: never the selection mode
      itself, and a different mode for each card. */
  function CardMode(card: Card): (mode: Mode)
    ensures mode != Select
    ensures mode == Image <==> card == ImageCard
  {
    match card
    case ImageCard => Image
    case TextCard => Text
  }

  class Shell {
    var mode: Mode

    constructor ()
      ensures mode == Select && RenderContent(mode) == SelectionScreen && HeaderShown(mode)
    {
      mode := Select;
    }

    /** handleSelectMode. */
    method SelectMode(newMode: Mode)
      modifies this
      ensures mode == newMode
    {
      mode := newMode;
    }

    /** handleGoBack, the back button of either translator screen. */
    method GoBack()
      modifies this
      ensures mode == Select && RenderContent(mode) == SelectionScreen && HeaderShown(mode)
    {
      mode := Select;
    }

    /** A click on a card; the cards exist only on the selection screen.
        It leaves the selection screen for the card's translator. */
    method ChooseCard(card: Card)
      requires RenderContent(mode) == SelectionScreen
      modifies this
      ensures mode == CardMode(card)
      ensures RenderContent(mode) == (if card == ImageCard then ImageScreen else TextScreen)
      ensures !HeaderShown(mode)
    {
      SelectMode(CardMode(card));
    }
  }
}
