/** Model-family dispatch (`get_llm` in src/utility.py).

    A model name selects a chat backend by case-sensitive substring tests,
    tried in a fixed order; a name that matches no family raises
    `ValueError("Unsupported model: <name>")`. The backend client itself,
    the temperature and the API key are outside this model.
 */
module Llm {
  import opened Outcomes
  import opened Text

  /** The two chat backends a model name can select. */
  datatype Backend = OpenAI | Groq

  const UnsupportedPrefix: string := "Unsupported model: "

  /** The backend `get_llm(name)` constructs, or the exception it raises. */
  function GetLlm(name: string): (r: Outcome<Backend>)
    ensures r.Raised? ==> r.error == UnsupportedPrefix + name
  {
    if Contains(name, "gpt") then Ok(OpenAI)
    else if Contains(name, "llama") || Contains(name, "mixtral") then Ok(Groq)
    else Raised(UnsupportedPrefix + name)
  }

  /** The three outcomes of the dispatch partition all names: "gpt" wins
      over the Groq families, and everything else is unsupported. */
  lemma GetLlmClassification(name: string)
    ensures GetLlm(name) == Ok(OpenAI) <==> Contains(name, "gpt")
    ensures GetLlm(name) == Ok(Groq) <==>
      !Contains(name, "gpt") && (Contains(name, "llama") || Contains(name, "mixtral"))
    ensures GetLlm(name).Raised? <==>
      !Contains(name, "gpt") && !Contains(name, "llama") && !Contains(name, "mixtral")
  {
  }

  /** A name mentioning both families goes to OpenAI, because "gpt" is
      tested first. */
  lemma GptTestedFirst()
    ensures GetLlm("llama-gpt") == Ok(OpenAI)
  {
    assert StartsWith("llama-gpt"[6..], "gpt");
    FoundAtMeansContains("llama-gpt", "gpt", 6);
  }

  /** Matching is case-sensitive: an upper-case family name is unsupported. */
  lemma UpperCaseUnsupported()
    ensures GetLlm("GPT-4o") == Raised("Unsupported model: GPT-4o")
  {
    FirstCharAbsent("GPT-4o", "gpt");
    FirstCharAbsent("GPT-4o", "llama");
    FirstCharAbsent("GPT-4o", "mixtral");
  }

  /** Adding text around a supported name keeps it supported, and a name
      that selects OpenAI keeps selecting it: the tests look for the family
      anywhere in the name. (A Groq name may turn into an OpenAI one when the
      added text holds "gpt".) */
  lemma SupportedWithinLongerName(name: string, before: string, after: string)
    ensures GetLlm(name).Ok? ==> GetLlm(before + name + after).Ok?
    ensures GetLlm(name) == Ok(OpenAI) ==> GetLlm(before + name + after) == Ok(OpenAI)
  {
    forall p | p in ["gpt", "llama", "mixtral"] && Contains(name, p)
      ensures Contains(before + name + after, p)
    {
      ContainsExtendLeft(before, name, p);
      ContainsExtendRight(before + name, after, p);
    }
  }
}
