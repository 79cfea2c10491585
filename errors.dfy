/** The exceptions the core raises, and the text `str(e)` gives for each. */
module Errors {

  datatype Error =
    | TeamPageNotFound    // no homepage anchor has a team-page keyword in its path
    | NoEffectiveFilter   // every select configuration failed
    | NoEffectiveSearch   // every search-box submission failed
    | NotEnoughNames      // fewer than two name elements on the page
    | NoParent            // a parent was asked of the document element
    | InvalidSelector     // a CSS selector the browser refuses (".")
    | ClickOnNothing      // a script click with no search button to click

  /**
    The fail reason a job records. The first four are the scraper's own messages;
    the last three stand for the browser's exception texts, which are not modelled.
  */
  function Message(e: Error): string {
    match e
    case TeamPageNotFound => "Failed to find a team page. Is the page still up?"
    case NoEffectiveFilter => "No filtering configuration was effective."
    case NoEffectiveSearch => "No search configuration was effective."
    case NotEnoughNames => "Not enough names to gain structure."
    case NoParent => "invalid selector: the parent of the document element is not an element"
    case InvalidSelector => "invalid selector: An invalid or illegal selector was specified"
    case ClickOnNothing => "javascript error: Cannot read properties of null (reading 'click')"
  }
}
