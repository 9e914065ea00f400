/** The contact form's submit handler in js/script.js, as a decision on the
    field values. A field whose element is missing is `None`; the `alert`,
    the focus change and `form.reset()` are carried by the outcome. */
module ContactForm {
  import opened Wrappers

  datatype Outcome =
    | InvalidEmail            // e-mail message shown, focus on the e-mail field
    | MissingFields           // required-fields message shown
    | Sent(greeting: string)  // thank-you message naming `greeting`, form reset

  /** JavaScript truthiness of an optional string: present and not empty. */
  predicate Filled(field: Option<string>)
    ensures Filled(field) <==> field.Some? && |field.value| > 0
  {
    field.Some? && field.value != ""
  }

  /** `name.split(' ')[0]`: the text before the first space. */
  function FirstWord(name: string): (r: string)
    ensures r <= name
    ensures ' ' !in r
    ensures r == name || name[|r|] == ' '
  {
    if name == [] || name[0] == ' ' then [] else [name[0]] + FirstWord(name[1..])
  }

  /** The submit handler: the `@` check first, then the required fields,
      then the greeting. */
  function Submit(name: Option<string>, email: Option<string>, message: Option<string>): (r: Outcome)
    ensures r == InvalidEmail <==> email.Some? && '@' !in email.value
    ensures r.Sent? <==> Filled(name) && Filled(message) && email.Some? && '@' in email.value
    ensures r.Sent? ==> r.greeting == FirstWord(name.value)
  {
    if email.Some? && '@' !in email.value then InvalidEmail
    else if !Filled(name) || !Filled(email) || !Filled(message) then MissingFields
    else Sent(FirstWord(name.value))
  }

  /** The e-mail check comes first: a malformed address is reported even
      when every other field is empty. */
  lemma EmailCheckFirst(email: string)
    requires '@' !in email
    ensures Submit(None, Some(email), Some("")) == InvalidEmail
  {
  }

  /** A form without an e-mail field fails only the required-fields check. */
  lemma MissingEmailField(name: Option<string>, message: Option<string>)
    ensures Submit(name, None, message) == MissingFields
  {
  }

  /** The first word of a name is everything before its first space,
      whatever follows. */
  lemma {:induction false} FirstWordBeforeSpace(word: string, rest: string)
    requires ' ' !in word
    ensures FirstWord(word + " " + rest) == word
  {
    if word != [] {
      assert (word + " " + rest)[1..] == word[1..] + " " + rest;
      FirstWordBeforeSpace(word[1..], rest);
    }
  }

  /** The greeting uses the first name only. */
  lemma GreetsFirstName()
    ensures Submit(Some("Ana Maria Souza"), Some("ana@x.br"), Some("Oi")) == Sent("Ana")
  {
    FirstWordBeforeSpace("Ana", "Maria Souza");
    assert "Ana" + " " + "Maria Souza" == "Ana Maria Souza";
  }

  /** A name that begins with a space greets nobody by name. */
  lemma LeadingSpaceGreetsEmpty()
    ensures Submit(Some(" Ana"), Some("a@b"), Some("Oi")) == Sent("")
  {
  }
}
