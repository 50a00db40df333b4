/**
 * WhatsApp links (whatsapp.js): a number is reduced to its digits and given the Brazilian
 * country code `55` when it does not already start with it; without a number the link opens
 * the contact picker. `encodeURIComponent` is passed in as `encode`.
 */
module WhatsApp {
  import opened Wrappers
  import opened Text
  import opened Seqs

  const Gabriel: string := "11941197526"
  const Andre: string := "11973562750"

  /** `number.replace(/\D/g, '')`: the ASCII digits of the number, in order. */
  function CleanNumber(number: string): (r: string)
    ensures |r| <= |number|
  {
    Filter(number, IsDigit)
  }

  /** The cleaned number holds exactly the digits of the number, and a string of digits is its own cleaning. */
  lemma CleanNumberDigits(number: string)
    ensures AllDigits(CleanNumber(number))
    ensures forall c :: c in CleanNumber(number) <==> c in number && IsDigit(c)
    ensures AllDigits(number) ==> CleanNumber(number) == number
  {
    FilterMembers(number, IsDigit);
    assert forall i :: 0 <= i < |CleanNumber(number)| ==> CleanNumber(number)[i] in CleanNumber(number);
    if AllDigits(number) {
      FilterAll(number, IsDigit);
    }
  }

  /** The country code is prepended unless the cleaned number already starts with it. */
  function FinalNumber(clean: string): (r: string)
    ensures StartsWith(r, "55")
    ensures StartsWith(clean, "55") ==> r == clean
    ensures !StartsWith(clean, "55") ==> r == "55" + clean
  {
    if StartsWith(clean, "55") then clean else "55" + clean
  }

  function Normalize(number: string): string {
    FinalNumber(CleanNumber(number))
  }

  lemma FinalDigits(clean: string)
    requires AllDigits(clean)
    ensures AllDigits(FinalNumber(clean))
  {
    var r := FinalNumber(clean);
    if !StartsWith(clean, "55") {
      assert forall i :: 2 <= i < |r| ==> r[i] == clean[i - 2];
    }
  }

  /** A normalised number holds only digits, and normalising it again changes nothing. */
  lemma NormalizeIdempotent(number: string)
    ensures AllDigits(Normalize(number))
    ensures Normalize(Normalize(number)) == Normalize(number)
  {
    CleanNumberDigits(number);
    FinalDigits(CleanNumber(number));
    CleanNumberDigits(Normalize(number));
  }

  /** `createWhatsAppLink(number, text)`: a falsy number (`null` or `''`) opens the contact picker. */
  function Link(number: Option<string>, text: string, encode: string -> string): (url: string)
    ensures number.None? || number.value == "" ==> url == "https://wa.me/?text=" + encode(text)
    ensures number.Some? && number.value != "" ==> url == "https://wa.me/" + Normalize(number.value) + "?text=" + encode(text)
  {
    if number.None? || number.value == "" then "https://wa.me/?text=" + encode(text)
    else "https://wa.me/" + Normalize(number.value) + "?text=" + encode(text)
  }

  /** A number of digits that does not start with the country code gets it prepended. */
  lemma NormalizeDigits(number: string)
    requires AllDigits(number) && !StartsWith(number, "55")
    ensures Normalize(number) == "55" + number
  {
    CleanNumberDigits(number);
  }

  /** Messages to André go to 5511973562750. */
  lemma AndreNumber()
    ensures Normalize(Andre) == "5511973562750"
  {
    assert AllDigits(Andre);
    assert Andre[..2] != "55" by {
      assert Andre[0] == '1';
    }
    NormalizeDigits(Andre);
  }
}
