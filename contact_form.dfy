/**
 * The contact form: three text fields, the error record of the last submit
 * and the success text. Nothing is sent anywhere; a submit only validates and,
 * on success, clears the fields and shows a thank-you text.
 */
module ContactForm {
  import opened Wrappers

  /**
   * The characters `String.prototype.trim` strips: the WhiteSpace and
   * LineTerminator code points of ECMAScript (tab, vertical tab, form feed,
   * the byte order mark, the space separators of Unicode category Zs, line
   * feed, carriage return, and the line and paragraph separators).
   */
  predicate IsWhitespace(c: char)
    ensures c < '\U{0080}' ==> (IsWhitespace(c) <==> c == ' ' || '\t' <= c <= '\r')
  {
    || c == '\t' || c == '\U{000B}' || c == '\U{000C}' || c == '\U{FEFF}'
    || c == ' ' || c == '\U{00A0}' || c == '\U{1680}' || ('\U{2000}' <= c <= '\U{200A}')
    || c == '\U{202F}' || c == '\U{205F}' || c == '\U{3000}'
    || c == '\n' || c == '\r' || c == '\U{2028}' || c == '\U{2029}'
  }

  predicate AllWhitespace(s: string) {
    forall i :: 0 <= i < |s| ==> IsWhitespace(s[i])
  }

  /** `s` without its leading whitespace. */
  function TrimStart(s: string): (r: string)
    ensures |r| <= |s|
  {
    if s != [] && IsWhitespace(s[0]) then TrimStart(s[1..]) else s
  }

  /** `s` without its trailing whitespace. */
  function TrimEnd(s: string): (r: string)
    ensures |r| <= |s|
  {
    if s != [] && IsWhitespace(s[|s| - 1]) then TrimEnd(s[..|s| - 1]) else s
  }

  /** `TrimStart` drops a whitespace prefix and keeps the rest, which does not start with whitespace. */
  lemma {:induction false} TrimStartSpec(s: string)
    ensures var r := TrimStart(s);
      |r| <= |s| && r == s[|s| - |r|..] && AllWhitespace(s[..|s| - |r|]) && (r == [] || !IsWhitespace(r[0]))
  {
    if s != [] && IsWhitespace(s[0]) {
      TrimStartSpec(s[1..]);
      var r := TrimStart(s[1..]);
      assert s[..|s| - |r|] == [s[0]] + s[1..][..|s[1..]| - |r|];
    }
  }

  /** `TrimEnd` drops a whitespace suffix and keeps the rest, which does not end with whitespace. */
  lemma {:induction false} TrimEndSpec(s: string)
    ensures var r := TrimEnd(s);
      |r| <= |s| && r == s[..|r|] && AllWhitespace(s[|r|..]) && (r == [] || !IsWhitespace(r[|r| - 1]))
  {
    if s != [] && IsWhitespace(s[|s| - 1]) {
      TrimEndSpec(s[..|s| - 1]);
      var r := TrimEnd(s[..|s| - 1]);
      assert s[|r|..] == s[..|s| - 1][|r|..] + [s[|s| - 1]];
    }
  }

  /** `String.prototype.trim`: `s` without its leading and trailing whitespace. */
  function Trim(s: string): (r: string)
    ensures |r| <= |s|
  {
    TrimEnd(TrimStart(s))
  }

  /** What `Trim` keeps is a contiguous part of `s` with only whitespace around it, and it neither starts nor ends with whitespace. */
  lemma TrimSpec(s: string)
    ensures var r := Trim(s);
      r == [] || (!IsWhitespace(r[0]) && !IsWhitespace(r[|r| - 1]))
    ensures var r := Trim(s);
      exists i :: 0 <= i <= |s| - |r| && r == s[i..i + |r|] && AllWhitespace(s[..i]) && AllWhitespace(s[i + |r|..])
  {
    var t := TrimStart(s);
    var r := TrimEnd(t);
    TrimStartSpec(s);
    TrimEndSpec(t);
    var i := |s| - |t|;
    assert t == s[i..];
    assert r == t[..|r|];
    assert r == s[i..i + |r|];
    assert s[i + |r|..] == t[|r|..];
  }

  /** A string trims to nothing exactly when every character of it is whitespace. */
  lemma TrimEmptyIff(s: string)
    ensures Trim(s) == [] <==> AllWhitespace(s)
  {
    var t := TrimStart(s);
    TrimStartSpec(s);
    TrimEndSpec(t);
    if Trim(s) == [] {
      assert AllWhitespace(t[|Trim(s)|..]);
      assert t == [];
      assert s[..|s| - |t|] == s;
    }
  }

  /** The three fields, named as the `name` attributes of the inputs. */
  datatype Field = Name | Email | Message

  /** `formState`. */
  datatype Fields = Fields(name: string, email: string, message: string) {

    function Get(f: Field): string {
      match f
      case Name => name
      case Email => email
      case Message => message
    }

    /** `{ ...formState, [f]: value }`: `f` becomes `value`, the other fields stay. */
    function With(f: Field, value: string): (r: Fields)
      ensures r.Get(f) == value
      ensures forall g :: g != f ==> r.Get(g) == Get(g)
    {
      match f
      case Name => this.(name := value)
      case Email => this.(email := value)
      case Message => this.(message := value)
    }
  }

  const Cleared: Fields := Fields("", "", "")

  /** `formErrors`: at most one error text per field. */
  datatype Errors = Errors(name: Option<string>, email: Option<string>, message: Option<string>) {

    /** `Object.keys(nextErrors).length === 0`. */
    predicate IsEmpty() {
      name.None? && email.None? && message.None?
    }
  }

  const NoErrors: Errors := Errors(None, None, None)

  const NameError: string := "Please share your name."
  const EmailError: string := "Enter a valid email address."
  const MessageError: string := "Tell me about your project or idea."
  const SuccessText: string := "Thanks! I will get back to you within 24-48 hours."

  /** The error record a submit builds, one conditional per field. */
  function Validate(f: Fields): (e: Errors)
    ensures e.email.Some? <==> '@' !in f.email
  {
    Errors(
      if Trim(f.name) == [] then Some(NameError) else None,
      if '@' !in f.email then Some(EmailError) else None,
      if Trim(f.message) == [] then Some(MessageError) else None)
  }

  /**
   * The rules by character content: the name and the message must hold a
   * character that is not whitespace, the email (untrimmed) must hold an '@';
   * each failing rule gives its field's text and nothing else does.
   */
  lemma ValidateByRules(f: Fields)
    ensures Validate(f) == Errors(
      if AllWhitespace(f.name) then Some(NameError) else None,
      if '@' in f.email then None else Some(EmailError),
      if AllWhitespace(f.message) then Some(MessageError) else None)
  {
    TrimEmptyIff(f.name);
    TrimEmptyIff(f.message);
  }

  /** A submit succeeds exactly when all three rules pass. */
  lemma SubmitSucceedsIff(f: Fields)
    ensures Validate(f).IsEmpty() <==>
      (exists i :: 0 <= i < |f.name| && !IsWhitespace(f.name[i])) &&
      '@' in f.email &&
      (exists i :: 0 <= i < |f.message| && !IsWhitespace(f.message[i]))
  {
    ValidateByRules(f);
  }

  /** The cleared form fails every rule, so submitting it again reports all three errors. */
  lemma ClearedFailsEveryRule()
    ensures Validate(Cleared) == Errors(Some(NameError), Some(EmailError), Some(MessageError))
  {
    ValidateByRules(Cleared);
  }

  /** Three submissions, each with one outcome. */
  lemma ValidationExamples()
    ensures Validate(Fields("", "a@b.com", "hi")) == Errors(Some(NameError), None, None)
    ensures Validate(Fields("Kishore", "not-an-email", "hi")) == Errors(None, Some(EmailError), None)
    ensures Validate(Fields("Kishore", "a@b.com", "hello")).IsEmpty()
    ensures Validate(Fields(" \t", " @ ", "\n")) == Errors(Some(NameError), None, Some(MessageError))
  {
    var name, email, message := "Kishore", "a@b.com", "hello";
    assert email[1] == '@' && !IsWhitespace(name[0]) && !IsWhitespace(message[0]) && !IsWhitespace("hi"[0]);
    assert forall i :: 0 <= i < |"not-an-email"| ==> "not-an-email"[i] != '@';
    ValidateByRules(Fields("", email, "hi"));
    ValidateByRules(Fields(name, "not-an-email", "hi"));
    ValidateByRules(Fields(name, email, message));
    assert " @ "[1] == '@';
    ValidateByRules(Fields(" \t", " @ ", "\n"));
  }

  /** The state the contact section keeps: `formState`, `formErrors` and `formSuccess`. */
  class Form {
    var state: Fields
    var errors: Errors
    var success: string

    constructor ()
      ensures state == Cleared && errors == NoErrors && success == ""
    {
      state := Cleared;
      errors := NoErrors;
      success := "";
    }

    /** `handleChange`: the named field takes the typed value; nothing else changes. */
    method Change(field: Field, value: string)
      modifies this
      ensures state == old(state).With(field, value)
      ensures errors == old(errors) && success == old(success)
    {
      state := state.With(field, value);
    }

    /**
     * `handleSubmit`: the error record is replaced by the one the current
     * fields give; when it is empty the success text is set and the fields
     * are cleared, otherwise the fields and the earlier success text stay.
     */
    method Submit()
      modifies this
      ensures errors == Validate(old(state))
      ensures errors.IsEmpty() ==> state == Cleared && success == SuccessText
      ensures !errors.IsEmpty() ==> state == old(state) && success == old(success)
    {
      var nameBlank := Trim(state.name) == [];
      var emailInvalid := '@' !in state.email;
      var messageBlank := Trim(state.message) == [];
      assert Validate(state) == Errors(
        if nameBlank then Some(NameError) else None,
        if emailInvalid then Some(EmailError) else None,
        if messageBlank then Some(MessageError) else None);
      var nextErrors := NoErrors;
      if nameBlank {
        nextErrors := nextErrors.(name := Some(NameError));
      }
      if emailInvalid {
        nextErrors := nextErrors.(email := Some(EmailError));
      }
      if messageBlank {
        nextErrors := nextErrors.(message := Some(MessageError));
      }
      errors := nextErrors;
      if nextErrors.IsEmpty() {
        success := SuccessText;
        state := Cleared;
      }
    }
  }
}
