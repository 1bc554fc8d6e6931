/** The two-letter postal codes of the fifty states and their names, as both
    cleaners spell them. */
module States {
  import opened Records

  /** the entry of `state_map` for a code, if it has one */
  function Lookup(code: string): Option<string> {
    match code
    case "AL" => Some("Alabama")
    case "AK" => Some("Alaska")
    case "AZ" => Some("Arizona")
    case "AR" => Some("Arkansas")
    case "CA" => Some("California")
    case "CO" => Some("Colorado")
    case "CT" => Some("Connecticut")
    case "DE" => Some("Delaware")
    case "FL" => Some("Florida")
    case "GA" => Some("Georgia")
    case "HI" => Some("Hawaii")
    case "ID" => Some("Idaho")
    case "IL" => Some("Illinois")
    case "IN" => Some("Indiana")
    case "IA" => Some("Iowa")
    case "KS" => Some("Kansas")
    case "KY" => Some("Kentucky")
    case "LA" => Some("Louisiana")
    case "ME" => Some("Maine")
    case "MD" => Some("Maryland")
    case "MA" => Some("Massachusetts")
    case "MI" => Some("Michigan")
    case "MN" => Some("Minnesota")
    case "MS" => Some("Mississippi")
    case "MO" => Some("Missouri")
    case "MT" => Some("Montana")
    case "NE" => Some("Nebraska")
    case "NV" => Some("Nevada")
    case "NH" => Some("New Hampshire")
    case "NJ" => Some("New Jersey")
    case "NM" => Some("New Mexico")
    case "NY" => Some("New York")
    case "NC" => Some("North Carolina")
    case "ND" => Some("North Dakota")
    case "OH" => Some("Ohio")
    case "OK" => Some("Oklahoma")
    case "OR" => Some("Oregon")
    case "PA" => Some("Pennsylvania")
    case "RI" => Some("Rhode Island")
    case "SC" => Some("South Carolina")
    case "SD" => Some("South Dakota")
    case "TN" => Some("Tennessee")
    case "TX" => Some("Texas")
    case "UT" => Some("Utah")
    case "VT" => Some("Vermont")
    case "VA" => Some("Virginia")
    case "WA" => Some("Washington")
    case "WV" => Some("West Virginia")
    case "WI" => Some("Wisconsin")
    case "WY" => Some("Wyoming")
    case _ => None
  }

  predicate IsStateCode(code: string) { Lookup(code).Some? }

  /** `state_map.get(code, code)`: the name of a known code, else the code itself */
  function FullName(code: string): string {
    if IsStateCode(code) then Lookup(code).value else code
  }

  /** No state's name is "Puerto Rico" or a two-letter code. */
  lemma NamesAreLong(code: string)
    requires IsStateCode(code)
    ensures |Lookup(code).value| >= 4 && Lookup(code).value != "Puerto Rico"
  {
  }
}
