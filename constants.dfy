/**
  The scraper's vocabularies and limits. Their contents live in a constants module
  that is not part of this model, so they are carried as one value that callers
  pass in.
*/
module Constants {

  /** `FirmType`: which vocabularies apply to a job. */
  datatype FirmType = Law | Investment

  datatype Vocabulary = Vocabulary(
    lawFirmKeyPractices: seq<string>,       // LAW_FIRM_KEY_PRACTICES
    lawFirmKeyTitles: seq<string>,          // LAW_FIRM_KEY_TITLES
    investmentBankKeyTitles: seq<string>,   // INVESTMENT_BANK_KEY_TITLES
    teamPageKeywords: seq<string>,          // TEAM_PAGE_KEYWORDS
    lawFirmTeamPageKeywords: seq<string>,   // LAW_FIRM_TEAM_PAGE_KEYWORDS
    nameLimit: nat)                         // NAME_LIMIT

  /** The lines that mark a key person: practices and titles for LAW, bank titles for INVESTMENT. */
  function KeyList(v: Vocabulary, firmType: FirmType): seq<string> {
    match firmType
    case Law => v.lawFirmKeyPractices + v.lawFirmKeyTitles
    case Investment => v.investmentBankKeyTitles
  }

  /** The keywords a team-page path is matched against; LAW adds its own list. */
  function TeamPageKeywords(v: Vocabulary, firmType: FirmType): seq<string> {
    match firmType
    case Law => v.teamPageKeywords + v.lawFirmTeamPageKeywords
    case Investment => v.teamPageKeywords
  }

  /** A lower-cased option text worth filtering on: it is in any of the three vocabularies. */
  predicate IsKeyOption(v: Vocabulary, lowered: string) {
    lowered in v.lawFirmKeyPractices || lowered in v.lawFirmKeyTitles || lowered in v.investmentBankKeyTitles
  }
}
