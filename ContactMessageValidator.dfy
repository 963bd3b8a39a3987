/**
 * The FluentValidation rules for a contact form submission.  Every rule of
 * every field is evaluated; the result lists the failures in declaration order.
 */
module ContactMessageValidator {
  import opened Text
  import opened Entities

  /**
   * FluentValidation's default EmailAddress check: the first '@' is neither the
   * first nor the last character and is also the last '@'.
   */
  predicate IsEmailAddress(s: string) {
    var at := IndexOf(s, '@');
    at > 0 && at != |s| - 1 && at == LastIndexOf(s, '@')
  }

  /** The email check accepts exactly the strings with one '@' strictly inside. */
  lemma EmailAddressShape(s: string)
    ensures IsEmailAddress(s) <==> |s| > 0 && Count(s, '@') == 1 && s[0] != '@' && s[|s| - 1] != '@'
  {
    var i, j := IndexOf(s, '@'), LastIndexOf(s, '@');
    if i < 0 {
      CountZero(s, '@');
    } else if i == j {
      SingleAt(s, i);
    } else {
      TwoAts(s, i, j);
    }
  }

  lemma SingleAt(s: string, i: nat)
    requires i < |s| && s[i] == '@' && '@' !in s[..i] && '@' !in s[i + 1..]
    ensures Count(s, '@') == 1
  {
    assert s == s[..i] + ([s[i]] + s[i + 1..]);
    CountAppend(s[..i], [s[i]] + s[i + 1..], '@');
    CountAppend([s[i]], s[i + 1..], '@');
    CountZero(s[..i], '@');
    CountZero(s[i + 1..], '@');
  }

  lemma TwoAts(s: string, i: nat, j: nat)
    requires i < j < |s| && s[i] == '@' && s[j] == '@'
    ensures Count(s, '@') >= 2
  {
    assert s == s[..j] + s[j..];
    CountAppend(s[..j], s[j..], '@');
    assert s[..j][i] == '@';
    CountZero(s[..j], '@');
    assert s[j..][0] == '@';
    CountZero(s[j..], '@');
  }

  function NameErrors(name: string): seq<string> {
    (if IsNullOrWhiteSpace(name) then ["Name is required."] else [])
    + (if |name| > 100 then ["Name cannot exceed 100 characters."] else [])
  }

  function EmailErrors(email: string): seq<string> {
    (if IsNullOrWhiteSpace(email) then ["Email is required."] else [])
    + (if !IsEmailAddress(email) then ["Invalid email address."] else [])
    + (if |email| > 200 then ["Email cannot exceed 200 characters."] else [])
  }

  function SubjectErrors(subject: string): seq<string> {
    (if IsNullOrWhiteSpace(subject) then ["Subject is required."] else [])
    + (if |subject| > 200 then ["Subject cannot exceed 200 characters."] else [])
  }

  function MessageErrors(message: string): seq<string> {
    (if IsNullOrWhiteSpace(message) then ["Message is required."] else [])
    + (if |message| < 10 then ["Message must be at least 10 characters."] else [])
  }

  /** ContactMessageValidator: the failure messages, empty when the submission is accepted. */
  function Validate(m: ContactMessageFields): (errors: seq<string>)
    ensures errors == [] <==>
      && !IsNullOrWhiteSpace(m.name) && |m.name| <= 100
      && !IsNullOrWhiteSpace(m.email) && IsEmailAddress(m.email) && |m.email| <= 200
      && !IsNullOrWhiteSpace(m.subject) && |m.subject| <= 200
      && !IsNullOrWhiteSpace(m.message) && |m.message| >= 10
    ensures IsNullOrWhiteSpace(m.name) ==> errors[0] == "Name is required."
  {
    NameErrors(m.name) + EmailErrors(m.email) + SubjectErrors(m.subject) + MessageErrors(m.message)
  }

  predicate IsValid(m: ContactMessageFields) {
    Validate(m) == []
  }

  /** An accepted submission fits the Name, Email and Subject column widths (100, 200, 200). */
  lemma AcceptedFitsColumns(m: ContactMessageFields)
    requires IsValid(m)
    ensures |m.name| <= 100 && |m.email| <= 200 && |m.subject| <= 200
    ensures |m.email| >= 3
  {
    EmailAddressShape(m.email);
  }

  /** The message body has a minimum length and no maximum. */
  lemma LongerMessageStillValid(m: ContactMessageFields, extra: string)
    requires IsValid(m)
    ensures IsValid(m.(message := m.message + extra))
  {
    var i :| 0 <= i < |m.message| && !IsWhiteSpace(m.message[i]);
    assert (m.message + extra)[i] == m.message[i];
  }
}
