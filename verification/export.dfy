/** The export dialog's decisions (src/components/ExportModal.tsx): which
    addresses the test form accepts, what a test send carries, and the name
    of the downloaded file. */
module Export {
  import opened Wrappers
  import opened Strings

  // ----- Address validation -----

  /** `[^\s@]`: anything but white space and `@`. */
  predicate EmailChar(c: char) {
    !IsWhitespace(c) && c != '@'
  }

  predicate AllEmailChars(s: string) {
    forall i :: 0 <= i < |s| ==> EmailChar(s[i])
  }

  /** The language of `/^[^\s@]+@[^\s@]+\.[^\s@]+$/`, read by positions: a
      non-empty local part, one `@`, and a domain of `[^\s@]` characters with
      a dot neither first nor last. */
  ghost predicate EmailPattern(s: string) {
    exists a, d ::
      && 0 < a && a + 1 < d && d + 1 < |s|
      && s[a] == '@' && s[d] == '.'
      && AllEmailChars(s[..a]) && AllEmailChars(s[a + 1..])
  }

  /** The first position of `c` in `s`, if any. */
  function IndexOf(s: string, c: char): (r: Option<nat>)
    ensures r.Some? ==> r.value < |s| && s[r.value] == c && c !in s[..r.value]
    ensures r.None? ==> c !in s
  {
    if |s| == 0 then None
    else if s[0] == c then Some(0)
    else
      match IndexOf(s[1..], c)
      case None => None
      case Some(i) =>
        assert s[..i + 1] == [s[0]] + s[1..][..i];
        Some(i + 1)
  }

  /** A dot strictly inside `t`. */
  predicate HasInnerDot(t: string) {
    |t| >= 3 && '.' in t[1..|t| - 1]
  }

  /** `validateEmail(email)`, decided by scanning: split at the first `@`, then
      check both sides' characters and the domain's inner dot. An accepted
      address has no white space and exactly one `@`. */
  function ValidateEmail(s: string): (r: bool)
    ensures r ==> forall i :: 0 <= i < |s| ==> !IsWhitespace(s[i])
    ensures r ==> exists a :: 0 < a < |s| && s[a] == '@' && forall i :: 0 <= i < |s| && i != a ==> s[i] != '@'
  {
    match IndexOf(s, '@')
    case None => false
    case Some(a) =>
      if a > 0 && AllEmailChars(s[..a]) && AllEmailChars(s[a + 1..]) && HasInnerDot(s[a + 1..]) then
        assert forall i :: 0 <= i < |s| && i != a ==> (i < a ==> s[i] == s[..a][i]) && (i > a ==> s[i] == s[a + 1..][i - a - 1]);
        true
      else false
  }

  /** The scan accepts exactly the strings the regular expression matches. */
  lemma ValidateEmailMatchesPattern(s: string)
    ensures ValidateEmail(s) <==> EmailPattern(s)
  {
    if ValidateEmail(s) {
      AcceptedMatches(s);
    }
    if EmailPattern(s) {
      MatchedAccepted(s);
    }
  }

  lemma AcceptedMatches(s: string)
    requires ValidateEmail(s)
    ensures EmailPattern(s)
  {
    var a := IndexOf(s, '@').value;
    var t := s[a + 1..];
    var k :| 0 <= k < |t[1..|t| - 1]| && t[1..|t| - 1][k] == '.';
    var d := a + 2 + k;
    assert s[d] == '.';
  }

  lemma MatchedAccepted(s: string)
    requires EmailPattern(s)
    ensures ValidateEmail(s)
  {
    var a, d :|
      && 0 < a && a + 1 < d && d + 1 < |s|
      && s[a] == '@' && s[d] == '.'
      && AllEmailChars(s[..a]) && AllEmailChars(s[a + 1..]);
    assert '@' !in s[..a] by {
      forall i | 0 <= i < a ensures s[..a][i] != '@' {
        assert EmailChar(s[..a][i]);
      }
    }
    var found := IndexOf(s, '@');
    assert found.Some? by {
      assert s[a] in s;
    }
    assert found.value == a;
    var t := s[a + 1..];
    assert HasInnerDot(t) by {
      assert t[1..|t| - 1][d - a - 2] == '.';
    }
    assert a > 0 && AllEmailChars(s[..a]) && AllEmailChars(t);
  }

  // ----- The test form -----

  /** `s.split(",").map(e => e.trim())`. */
  function TrimEach(pieces: seq<string>): (r: seq<string>)
    ensures |r| == |pieces|
    ensures forall i :: 0 <= i < |pieces| ==> r[i] == Trim(pieces[i])
  {
    seq(|pieces|, i requires 0 <= i < |pieces| => Trim(pieces[i]))
  }

  /** `.filter(Boolean)` on strings: the non-empty ones, in order. */
  function KeepNonEmpty(ps: seq<string>): (r: seq<string>)
    ensures |r| <= |ps|
    ensures forall e :: e in r <==> e in ps && e != ""
  {
    if |ps| == 0 then []
    else if ps[0] == "" then KeepNonEmpty(ps[1..])
    else [ps[0]] + KeepNonEmpty(ps[1..])
  }

  /** Filtering commutes with concatenation, so it keeps the input's order. */
  lemma {:induction false} KeepNonEmptyConcat(xs: seq<string>, ys: seq<string>)
    ensures KeepNonEmpty(xs + ys) == KeepNonEmpty(xs) + KeepNonEmpty(ys)
  {
    if |xs| > 0 {
      KeepNonEmptyConcat(xs[1..], ys);
      assert (xs + ys)[1..] == xs[1..] + ys;
    } else {
      assert xs + ys == ys;
    }
  }

  /** Filtering keeps a list without empty strings as it is. */
  lemma {:induction false} KeepNonEmptyOfNonEmpty(ps: seq<string>)
    requires forall i :: 0 <= i < |ps| ==> ps[i] != ""
    ensures KeepNonEmpty(ps) == ps
  {
    if |ps| > 0 {
      KeepNonEmptyOfNonEmpty(ps[1..]);
    }
  }

  /** Trimming comma-free pieces gives trimmed, comma-free entries. */
  lemma TrimEachClean(pieces: seq<string>)
    requires forall i :: 0 <= i < |pieces| ==> ',' !in pieces[i]
    ensures forall e :: e in TrimEach(pieces) ==> Trim(e) == e && ',' !in e
  {
    var trimmed := TrimEach(pieces);
    forall i | 0 <= i < |trimmed|
      ensures Trim(trimmed[i]) == trimmed[i] && ',' !in trimmed[i]
    {
      TrimIdempotent(pieces[i]);
      assert ',' !in pieces[i];
    }
  }

  /** The trimmed list holds exactly the trims of the pieces. */
  lemma TrimEachMembers(pieces: seq<string>)
    ensures forall e :: e in TrimEach(pieces) <==> exists p :: p in pieces && Trim(p) == e
  {
    var trimmed := TrimEach(pieces);
    forall e | exists p :: p in pieces && Trim(p) == e
      ensures e in trimmed
    {
      var p :| p in pieces && Trim(p) == e;
      var i :| 0 <= i < |pieces| && pieces[i] == p;
      assert trimmed[i] == e;
    }
  }

  /** The recipient list of the "Send a Test Email" field: the comma
      separated entries, trimmed, with the blank ones dropped. */
  function Recipients(to: string): (r: seq<string>)
    ensures forall e :: e in r ==> e != "" && Trim(e) == e && ',' !in e
    ensures forall e :: e in r <==> e != "" && exists p :: p in Split(to, ',') && Trim(p) == e
  {
    TrimEachClean(Split(to, ','));
    TrimEachMembers(Split(to, ','));
    KeepNonEmpty(TrimEach(Split(to, ',')))
  }

  /** A list of addresses written with commas between them reads back as
      that list. */
  lemma RecipientsOfJoin(addrs: seq<string>)
    requires |addrs| >= 1
    requires forall i :: 0 <= i < |addrs| ==> addrs[i] != "" && Trim(addrs[i]) == addrs[i] && ',' !in addrs[i]
    ensures Recipients(Join(addrs, ',')) == addrs
  {
    SplitJoin(addrs, ',');
    CleanPiecesKept(addrs);
  }

  /** Non-empty, trimmed pieces pass the trim and the filter unchanged. */
  lemma CleanPiecesKept(addrs: seq<string>)
    requires forall i :: 0 <= i < |addrs| ==> addrs[i] != "" && Trim(addrs[i]) == addrs[i]
    ensures KeepNonEmpty(TrimEach(addrs)) == addrs
  {
    assert TrimEach(addrs) == addrs;
    KeepNonEmptyOfNonEmpty(addrs);
  }

  /** An address the form accepts is its own trim. */
  lemma ValidIsTrimmed(s: string)
    requires ValidateEmail(s)
    ensures s != "" && Trim(s) == s
  {
    TrimOfTrimmed(s);
  }

  const FromErrorMessage: string :=
    "This is not a valid email address. Please double check your email and try again."
  const ToErrorMessage: string :=
    "Please enter one or more valid email addresses, separated by commas."

  /** What a successful test send hands on: the sender as typed, the parsed
      recipients and the rendered HTML. */
  datatype TestEmail = TestEmail(from: string, to: seq<string>, html: string)

  /** The form's state after a submit: both error messages, the success flag,
      and the data logged when the send goes ahead. */
  datatype TestOutcome = TestOutcome(fromError: string, toError: string, success: bool, sent: Option<TestEmail>)

  /** The recipient field is acceptable: at least one entry, every entry valid. */
  predicate RecipientsValid(emails: seq<string>) {
    |emails| > 0 && forall i :: 0 <= i < |emails| ==> ValidateEmail(emails[i])
  }

  /** `handleTest`: both messages are cleared and recomputed on every submit;
      the sender is checked as typed, the recipients after parsing, and the
      data goes out only when both pass. */
  function HandleTest(from: string, to: string, html: string): (r: TestOutcome)
    ensures r.fromError == "" <==> ValidateEmail(from)
    ensures r.fromError != "" ==> r.fromError == FromErrorMessage
    ensures r.toError == "" <==> RecipientsValid(Recipients(to))
    ensures r.toError != "" ==> r.toError == ToErrorMessage
    ensures r.success <==> r.fromError == "" && r.toError == ""
    ensures r.success <==> r.sent.Some?
    ensures r.sent.Some? ==> r.sent.value == TestEmail(from, Recipients(to), html)
  {
    var emails := Recipients(to);
    var fromError := if ValidateEmail(from) then "" else FromErrorMessage;
    var toError := if RecipientsValid(emails) then "" else ToErrorMessage;
    if fromError == "" && toError == "" then TestOutcome("", "", true, Some(TestEmail(from, emails, html)))
    else TestOutcome(fromError, toError, false, None)
  }

  /** Valid addresses without commas, written comma-separated, are sent to
      exactly, in order. */
  lemma TestSendsJoinedList(from: string, addrs: seq<string>, html: string)
    requires ValidateEmail(from)
    requires |addrs| >= 1
    requires forall i :: 0 <= i < |addrs| ==> ValidateEmail(addrs[i]) && ',' !in addrs[i]
    ensures HandleTest(from, Join(addrs, ','), html).sent == Some(TestEmail(from, addrs, html))
  {
    forall i | 0 <= i < |addrs|
      ensures addrs[i] != "" && Trim(addrs[i]) == addrs[i]
    {
      ValidIsTrimmed(addrs[i]);
    }
    RecipientsOfJoin(addrs);
    assert RecipientsValid(Recipients(Join(addrs, ',')));
  }

  /** The recipients are trimmed but the sender is not: the same padded
      address is accepted in one field and refused in the other. */
  lemma SenderIsNotTrimmed()
    ensures Recipients(" a@b.co") == ["a@b.co"]
    ensures !ValidateEmail(" a@b.co")
  {
    var s := " a@b.co";
    assert s[1..] == "a@b.co";
    TrimOfTrimmed("a@b.co");
    assert Trim(s) == "a@b.co";
    SplitNoSeparator(s, ',');
    assert !IsWhitespace('a');
    assert TrimEach([s]) == ["a@b.co"];
    assert KeepNonEmpty(["a@b.co"]) == ["a@b.co"] by {
      KeepNonEmptyOfNonEmpty(["a@b.co"]);
    }
    assert IsWhitespace(s[0]);
  }

  // ----- The downloaded file's name -----

  predicate IsAsciiAlnum(c: char) {
    ('a' <= c <= 'z') || ('A' <= c <= 'Z') || ('0' <= c <= '9')
  }

  /** A character the file stem may hold: a lower-case ASCII letter, a digit or `-`. */
  predicate SlugChar(c: char) {
    ('a' <= c <= 'z') || ('0' <= c <= '9') || c == '-'
  }

  /** `s.replace(/[^a-z0-9]/gi, '-').toLowerCase()`: ASCII letters folded to
      lower case, digits kept, every other character one `-`. */
  function Slug(s: string): (r: string)
    ensures |r| == |s|
    ensures forall i :: 0 <= i < |r| ==> SlugChar(r[i])
    ensures forall i :: 0 <= i < |s| ==> (r[i] == '-' <==> !IsAsciiAlnum(s[i]))
    ensures forall i :: 0 <= i < |s| && IsAsciiAlnum(s[i]) ==> LowerAscii(r[i]) == LowerAscii(s[i])
  {
    seq(|s|, i requires 0 <= i < |s| => if IsAsciiAlnum(s[i]) then LowerAscii(s[i]) else '-')
  }

  /** A string is its own slug exactly when it holds only slug characters. */
  lemma SlugFixedPoints(s: string)
    ensures Slug(s) == s <==> forall i :: 0 <= i < |s| ==> SlugChar(s[i])
  {
    if forall i :: 0 <= i < |s| ==> SlugChar(s[i]) {
      assert forall i :: 0 <= i < |s| ==> Slug(s)[i] == s[i];
    }
  }

  /** Slugging twice is slugging once. */
  lemma SlugIdempotent(s: string)
    ensures Slug(Slug(s)) == Slug(s)
  {
    SlugFixedPoints(Slug(s));
  }

  const FallbackFilename: string := "email-template.html"

  /** `defaultFilename`: the slugged subject with `.html`, or
      `email-template.html` when the subject is empty. */
  function DefaultFilename(subject: string): (r: string)
    ensures |r| >= 5 && r[|r| - 5..] == ".html"
    ensures subject == "" ==> r == FallbackFilename
    ensures subject != "" ==> |r| == |subject| + 5 && r[..|subject|] == Slug(subject)
  {
    if subject == "" then FallbackFilename else Slug(subject) + ".html"
  }

  /** The stem of a default name built from a subject is already a slug. */
  lemma DefaultStemIsSlug(subject: string)
    requires subject != ""
    ensures var r := DefaultFilename(subject); Slug(r[..|r| - 5]) == r[..|r| - 5]
  {
    var r := DefaultFilename(subject);
    assert r[..|r| - 5] == Slug(subject);
    SlugIdempotent(subject);
  }

  /** `handleExport`: the typed name when there is one, taken as it is,
      otherwise the default. */
  function ExportFilename(typed: string, subject: string): (r: string)
    ensures typed != "" ==> r == typed
    ensures typed == "" ==> r == DefaultFilename(subject)
    ensures r != ""
  {
    if typed != "" then typed else DefaultFilename(subject)
  }
}
