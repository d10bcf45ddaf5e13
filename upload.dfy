/** The upload as App sees it: a guard on the configured endpoint URL, then a
    transfer whose only observable outcome is whether it threw. */
module Upload {

  /** The endpoint URL compiled into App, written in pieces of sixteen characters. */
  const GoogleScriptUrl: string :=
    "https://script.g" + "oogle.com/macros" + "/s/AKfycbxY3Yc72" + "oLktyHwRyNgGa5Aa" +
    "PAHnAGj-s4kyjKqb" + "AGKGa2C45LKVYHZJ" + "BN9L63R_Ap9/exec"

  /** The marker a not-yet-configured URL template contains. */
  const Placeholder: string := "TU_URL"

  const MissingUrlMessage: string := "Falta configurar la URL de Google Apps Script"

  /** JavaScript's `s.includes(t)`: t occurs in s as a contiguous substring. */
  predicate Includes(s: string, t: string): (b: bool)
    ensures b ==> |t| <= |s|
  {
    t <= s || (|s| > 0 && Includes(s[1..], t))
  }

  /** Every occurrence witnesses inclusion. */
  lemma {:induction false} IncludesAt(s: string, t: string, i: nat)
    requires i + |t| <= |s| && s[i..i + |t|] == t
    ensures Includes(s, t)
  {
    if i > 0 {
      assert s[1..][i - 1..i - 1 + |t|] == t;
      IncludesAt(s[1..], t, i - 1);
    }
  }

  /** Inclusion has a witness: the index at which t occurs in s. Together with
      IncludesAt, Includes is exactly "occurs as a contiguous substring". */
  lemma {:induction false} IncludedAt(s: string, t: string) returns (i: nat)
    requires Includes(s, t)
    ensures i + |t| <= |s| && s[i..i + |t|] == t
  {
    if t <= s {
      i := 0;
    } else {
      var j := IncludedAt(s[1..], t);
      assert s[1..][j..j + |t|] == s[j + 1..j + 1 + |t|];
      i := j + 1;
    }
  }

  /** A text that lacks the first character of t cannot include t. */
  lemma {:induction false} NotIncludedWithoutHead(s: string, t: string)
    requires |t| > 0 && t[0] !in s
    ensures !Includes(s, t)
  {
    if |s| > 0 {
      assert s[0] in s;
      NotIncludedWithoutHead(s[1..], t);
    }
  }

  /** The URL guard: a non-empty URL that does not contain the placeholder. */
  predicate UrlConfigured(url: string) {
    url != "" && !Includes(url, Placeholder)
  }

  /** Sent: nothing threw. MissingUrl: the guard threw `MissingUrlMessage`.
      TransportError: reading a file or the fetch threw. */
  datatype UploadOutcome = Sent | MissingUrl | TransportError

  /** The upload of a complete form. Reading the files and the fetch are not
      modelled; `transportFails` says whether either of them threw. */
  function UploadToGoogleDrive(url: string, transportFails: bool): (r: UploadOutcome)
    ensures r == Sent <==> UrlConfigured(url) && !transportFails
    ensures r == MissingUrl <==> !UrlConfigured(url)
  {
    if !UrlConfigured(url) then MissingUrl
    else if transportFails then TransportError
    else Sent
  }

  /** The URL compiled into App passes the guard, so the outcome of a
      submission depends only on the transfer. */
  lemma ConfiguredUrlPassesGuard()
    ensures UrlConfigured(GoogleScriptUrl)
    ensures forall fails :: UploadToGoogleDrive(GoogleScriptUrl, fails) == Sent <==> !fails
  {
    assert 'T' !in "https://script.g" && 'T' !in "oogle.com/macros" && 'T' !in "/s/AKfycbxY3Yc72";
    assert 'T' !in "oLktyHwRyNgGa5Aa" && 'T' !in "PAHnAGj-s4kyjKqb" && 'T' !in "AGKGa2C45LKVYHZJ";
    assert 'T' !in "BN9L63R_Ap9/exec";
    NotIncludedWithoutHead(GoogleScriptUrl, Placeholder);
  }

  /** A URL template still holding the placeholder is refused before anything is sent. */
  lemma PlaceholderUrlThrows(prefix: string, suffix: string, fails: bool)
    ensures UploadToGoogleDrive(prefix + Placeholder + suffix, fails) == MissingUrl
  {
    var url := prefix + Placeholder + suffix;
    assert url[|prefix|..|prefix| + |Placeholder|] == Placeholder;
    IncludesAt(url, Placeholder, |prefix|);
  }
}
