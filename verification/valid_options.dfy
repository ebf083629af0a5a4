/** Membership of a value in a list of accepted options, the check behind
    every enumerated field of the element and project constructors. */
module ValidOptions {

  function IsValidOption(value: string, validOptions: seq<string>): (r: bool)
    ensures r <==> value in validOptions
  {
    if |validOptions| == 0 then false
    else validOptions[0] == value || IsValidOption(value, validOptions[1..])
  }
}
