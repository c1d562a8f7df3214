/** The input prompts of the TypeScript tool: a prompt with a validator
    asks again until an answer passes. The answers typed are parameters; a
    prompt whose answers run out has been interrupted. */
module Prompt {
  import opened Text

  /** What a prompt's `validate` returns: accepted, or the message shown. */
  datatype Validation = Accept | Reject(message: string)

  /** An input prompt asks again until its validator accepts: the first
      accepted answer, or none when the answers run out (the prompt is
      interrupted). */
  function Prompted(answers: seq<string>, validate: string -> Validation): (r: Option<string>)
    ensures r.Some? ==> r.value in answers && validate(r.value) == Accept
    ensures r.None? <==> forall k :: 0 <= k < |answers| ==> validate(answers[k]).Reject?
  {
    if answers == [] then None
    else if validate(answers[0]) == Accept then Some(answers[0])
    else
      var r := Prompted(answers[1..], validate);
      assert forall k :: 1 <= k < |answers| ==> answers[k] == answers[1..][k - 1];
      r
  }

  /** The answer taken is the first that passes: every earlier one was
      refused. */
  lemma {:induction false} PromptedFirst(answers: seq<string>, validate: string -> Validation, i: nat)
    requires i < |answers| && validate(answers[i]) == Accept
    requires forall j :: 0 <= j < i ==> validate(answers[j]).Reject?
    ensures Prompted(answers, validate) == Some(answers[i])
  {
    if i > 0 {
      assert validate(answers[0]).Reject?;
      assert answers[1..][i - 1] == answers[i];
      PromptedFirst(answers[1..], validate, i - 1);
    }
  }
}
