/**
 * The phone-number logic of the console's home page (app/page.tsx): the storage
 * normaliser `formatPhoneNumberForStorage`, the display formatter
 * `formatPhoneNumber`, and the guard of "start a new conversation".
 */
module HomePage {
  import opened Types
  import opened JsString

  predicate StartsWithPlus(s: string) {
    |s| > 0 && s[0] == '+'
  }

  /** `s.replace(/^1/, '')`: one `1`, and only at the very start. */
  function DropLeadingOne(s: string): string {
    if |s| > 0 && s[0] == '1' then s[1..] else s
  }

  /**
   * `formatPhoneNumberForStorage`: trim; keep a `+`-prefixed number as it is;
   * otherwise drop one leading `1`, then every non-digit, and prefix `+1`.
   */
  function FormatForStorage(phone: string): (r: string)
    ensures StartsWithPlus(r)
  {
    var formatted := Trim(phone);
    if StartsWithPlus(formatted) then formatted
    else "+1" + DigitsOnly(DropLeadingOne(formatted))
  }

  /**
   * A trimmed `+`-number is returned exactly, inner characters included; anything
   * else becomes `+1` followed by digits only.
   */
  lemma FormatForStorageShape(phone: string)
    ensures StartsWithPlus(Trim(phone)) ==> FormatForStorage(phone) == Trim(phone)
    ensures !StartsWithPlus(Trim(phone)) ==>
      var r := FormatForStorage(phone); |r| >= 2 && r[..2] == "+1" && AllDigits(r[2..])
  {
    var t := Trim(phone);
    if !StartsWithPlus(t) {
      var r := FormatForStorage(phone);
      DigitsOnlyIsDigits(DropLeadingOne(t));
      assert r[2..] == DigitsOnly(DropLeadingOne(t));
    }
  }

  /** What the normaliser returns has no whitespace at either end. */
  lemma FormatForStorageTrimmed(phone: string)
    ensures Trim(FormatForStorage(phone)) == FormatForStorage(phone)
  {
    var r := FormatForStorage(phone);
    if !StartsWithPlus(Trim(phone)) {
      FormatForStorageShape(phone);
      assert r[|r| - 1] == '1' || r[|r| - 1] == r[2..][|r| - 3];
    }
    TrimOfTrimmed(r);
  }

  /** Formatting an already formatted number returns it unchanged. */
  lemma FormatForStorageIdempotent(phone: string)
    ensures FormatForStorage(FormatForStorage(phone)) == FormatForStorage(phone)
  {
    FormatForStorageTrimmed(phone);
  }

  /** Surrounding whitespace is irrelevant to the stored form. */
  lemma FormatForStorageIgnoresPadding(w1: string, phone: string, w2: string)
    requires AllWhitespace(w1) && AllWhitespace(w2)
    ensures FormatForStorage(w1 + phone + w2) == FormatForStorage(phone)
  {
    TrimIgnoresPadding(w1, phone, w2);
  }

  /**
   * A national number `d` (digits, not starting with the trunk digit `1`) is stored
   * the same whether it is entered bare, with the trunk `1`, or as `+1d`; with
   * `d == "8327905001"` these are the page's own examples.
   */
  lemma NationalAndTrunkAgree(d: string)
    requires AllDigits(d) && (d == [] || d[0] != '1')
    ensures FormatForStorage(d) == "+1" + d
    ensures FormatForStorage("1" + d) == "+1" + d
    ensures FormatForStorage("+1" + d) == "+1" + d
  {
    assert FormatForStorage(d) == "+1" + d by {
      TrimOfTrimmed(d);
      DigitsOnlyOfDigits(d);
    }
    TrunkOneDropped(d);
    assert FormatForStorage("+1" + d) == "+1" + d by {
      TrimOfTrimmed("+1" + d);
    }
  }

  /** Exactly one leading `1` is dropped: `"1" + d` is stored as `"+1" + d`, even when `d` starts with `1`. */
  lemma TrunkOneDropped(d: string)
    requires AllDigits(d)
    ensures FormatForStorage("1" + d) == "+1" + d
  {
    DigitsOnlyOfDigits(d);
    TrimOfTrimmed("1" + d);
    assert ("1" + d)[1..] == d;
  }

  /**
   * The `1` is looked for before the non-digits are removed: behind a leading
   * punctuation character `p` it is kept as a digit of the number.
   */
  lemma OneBehindPunctuationKept(p: char, d: string)
    requires !IsDigit(p) && !IsWhitespace(p) && p != '+'
    requires AllDigits(d)
    ensures FormatForStorage([p] + "1" + d) == "+11" + d
  {
    var t := "1" + d;
    var s := [p] + t;
    assert [p] + "1" + d == s;
    assert AllDigits(t) by {
      assert forall k :: 0 < k < |t| ==> t[k] == d[k - 1];
    }
    assert Trim(s) == s by {
      assert !IsWhitespace(s[|s| - 1]) by {
        assert s[|s| - 1] == t[|t| - 1];
      }
      TrimOfTrimmed(s);
    }
    assert DigitsOnly(s) == t by {
      DigitsOnlyAppend([p], t);
      DigitsOnlyOfDigits(t);
      assert DigitsOnly([p]) == [];
    }
    assert !StartsWithPlus(s) && DropLeadingOne(s) == s;
  }

  /** A `+`-number is kept with its inner spaces and punctuation; a blank one becomes `+1`. */
  lemma FormatForStorageKeepsPlusNumber()
    ensures FormatForStorage("+1 (832) 790-5001") == "+1 (832) 790-5001"
    ensures FormatForStorage("   ") == "+1"
  {
    assert FormatForStorage("+1 (832) 790-5001") == "+1 (832) 790-5001" by {
      TrimOfTrimmed("+1 (832) 790-5001");
    }
    assert FormatForStorage("   ") == "+1" by {
      TrimEmptyIff("   ");
    }
  }

  /** The regex `(\d{3})(\d{3})(\d{4})` matches at `i`. */
  predicate RunAt(s: string, i: nat) {
    i + 10 <= |s| && AllDigits(s[i..i + 10])
  }

  /** `i` is the leftmost match, the one a non-global `replace` rewrites. */
  predicate FirstRunAt(s: string, i: nat) {
    RunAt(s, i) && forall j: nat :: j < i ==> !RunAt(s, j)
  }

  /** The replacement `($1) $2-$3` for a ten-digit match `d`. */
  function Rendered(d: string): string
    requires |d| == 10
  {
    "(" + d[..3] + ") " + d[3..6] + "-" + d[6..]
  }

  /** The leftmost match at or after `from`, if any. */
  function FindRun(s: string, from: nat): (r: Option<nat>)
    ensures r.Some? ==> (from <= r.value && RunAt(s, r.value)
      && forall j: nat :: from <= j < r.value ==> !RunAt(s, j))
    ensures r.None? ==> forall j: nat :: from <= j ==> !RunAt(s, j)
    decreases |s| - from
  {
    if from + 10 > |s| then None
    else if RunAt(s, from) then Some(from)
    else FindRun(s, from + 1)
  }

  /** `formatPhoneNumber`: rewrites the first run of ten digits as `(ddd) ddd-dddd`. */
  function FormatPhoneNumber(s: string): (r: string)
    ensures forall i: nat :: FirstRunAt(s, i) ==> r == s[..i] + Rendered(s[i..i + 10]) + s[i + 10..]
    ensures r == s <==> forall j: nat :: !RunAt(s, j)
  {
    match FindRun(s, 0)
    case None => s
    case Some(i) =>
      var r := s[..i] + Rendered(s[i..i + 10]) + s[i + 10..];
      assert |r| == |s| + 4;
      r
  }

  lemma FormatPhoneNumberOfTenDigits(d: string)
    requires |d| == 10 && AllDigits(d)
    ensures FormatPhoneNumber(d) == Rendered(d)
  {
    assert FirstRunAt(d, 0);
    assert d[..0] == [] && d[0..10] == d && d[10..] == [];
  }

  /**
   * A stored number, `+1` followed by a ten-digit national number `n`, has eleven
   * digits in a row; the first ten of them, the country code included, are the
   * ones rewritten, so "+18327905001" is shown as "+(183) 279-05001".
   */
  lemma FormatPhoneNumberOfStoredNumber(n: string)
    requires |n| == 10 && AllDigits(n)
    ensures FormatPhoneNumber("+1" + n) == "+" + Rendered("1" + n[..9]) + n[9..]
  {
    var s := "+1" + n;
    assert !RunAt(s, 0) by { assert s[0..10][0] == '+'; }
    assert s[1..11] == "1" + n[..9];
    assert FirstRunAt(s, 1) by {
      forall j: nat | j < 1 ensures !RunAt(s, j) { }
    }
    assert s[..1] == "+" && s[11..] == n[9..];
  }

  /**
   * The display the header evidently means for a stored US number `+1` followed by
   * ten digits: the country code, then the national number grouped as
   * `(ddd) ddd-dddd`. Anything else is formatted as before.
   */
  function FormatPhoneNumberCorrected(s: string): string {
    if |s| == 12 && s[..2] == "+1" && AllDigits(s[2..]) then "+1 " + Rendered(s[2..])
    else FormatPhoneNumber(s)
  }

  /**
   * A national number entered on the page is stored as `+1` followed by it; as
   * written, the header then groups the country code into the area code.
   */
  lemma StoredNumberDisplayedAsWritten(d: string)
    requires |d| == 10 && AllDigits(d) && d[0] != '1'
    ensures FormatPhoneNumber(FormatForStorage(d)) == "+" + Rendered("1" + d[..9]) + d[9..]
  {
    NationalAndTrunkAgree(d);
    FormatPhoneNumberOfStoredNumber(d);
  }

  /** With the corrected formatter the stored number shows its own area code. */
  lemma StoredNumberDisplayedCorrected(d: string)
    requires |d| == 10 && AllDigits(d) && d[0] != '1'
    ensures FormatPhoneNumberCorrected(FormatForStorage(d)) == "+1 " + Rendered(d)
  {
    var s := "+1" + d;
    assert FormatForStorage(d) == s by {
      NationalAndTrunkAgree(d);
    }
    assert |s| == 12 && s[..2] == "+1" && s[2..] == d;
  }

  /** The part of the page's state that "start a new conversation" touches. */
  datatype NewConversationState = NewConversationState(
    newPhoneNumber: string,
    showNewConversation: bool,
    selectedPhoneNumber: Option<string>)

  /**
   * `handleStartNewConversation`: a blank entry changes nothing; otherwise the
   * stored form of the entry is selected, the entry is cleared and the form closed.
   */
  function StartNewConversation(st: NewConversationState): (r: NewConversationState)
    ensures AllWhitespace(st.newPhoneNumber) ==> r == st
    ensures !AllWhitespace(st.newPhoneNumber) ==>
      && r.selectedPhoneNumber == Some(FormatForStorage(st.newPhoneNumber))
      && r.newPhoneNumber == ""
      && !r.showNewConversation
  {
    var phone := Trim(st.newPhoneNumber);
    TrimEmptyIff(st.newPhoneNumber);
    if phone != "" then
      TrimIdempotent(st.newPhoneNumber);
      NewConversationState("", false, Some(FormatForStorage(phone)))
    else st
  }
}
