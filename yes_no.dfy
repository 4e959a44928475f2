/** The answer interpretation of `query_yes_no` (generate.py:15-43): the
    default is checked once, then each reply line is lower-cased and looked
    up until one of them decides. Terminal output is not modelled; the reply
    lines are supplied by the caller. */
module YesNo {
  import opened Wrappers

  /** The replies that decide the question, and what each one means. */
  const Answers: map<string, bool> :=
    map["yes" := true, "y" := true, "ye" := true, "no" := false, "n" := false]

  /** The defaults the function accepts: "yes", "no" or Python's None. */
  predicate ValidDefault(default: Option<string>) {
    default == None || default == Some("yes") || default == Some("no")
  }

  /** The text of the ValueError raised for any other default. */
  function InvalidDefaultMessage(default: string): string {
    "invalid default answer: '" + default + "'"
  }

  function LowerChar(c: char): char {
    if 'A' <= c <= 'Z' then (c as int - 'A' as int + 'a' as int) as char else c
  }

  /** `str.lower()` on the characters that can spell an answer (ASCII). */
  function Lower(s: string): (r: string)
    ensures |r| == |s|
    ensures forall i :: 0 <= i < |s| ==> r[i] == LowerChar(s[i])
  {
    if s == [] then [] else [LowerChar(s[0])] + Lower(s[1..])
  }

  /** What one reply line does. */
  datatype Decision = Answer(yes: bool) | Reprompt

  /** Why the question got no answer. */
  datatype AskError =
    | InvalidDefault(message: string)  // ValueError before anything is read
    | EndOfInput                      // EOFError from input()

  /** The decision for one reply line under the given default. */
  function Decide(default: Option<string>, line: string): (r: Result<Decision, string>)
    ensures r.Failure? <==> !ValidDefault(default)
    ensures r.Failure? ==> r.error == InvalidDefaultMessage(default.value)
    ensures r == Success(Answer(true)) <==>
      ValidDefault(default) &&
      (Lower(line) in {"yes", "y", "ye"} || (line == "" && default == Some("yes")))
    ensures r == Success(Answer(false)) <==>
      ValidDefault(default) &&
      (Lower(line) in {"no", "n"} || (line == "" && default == Some("no")))
    ensures r == Success(Reprompt) <==>
      ValidDefault(default) && Lower(line) !in Answers && (line == "" ==> default == None)
  {
    if !ValidDefault(default) then
      Failure(InvalidDefaultMessage(default.value))
    else
      var choice := Lower(line);
      if default.Some? && choice == "" then Success(Answer(Answers[default.value]))
      else if choice in Answers then Success(Answer(Answers[choice]))
      else Success(Reprompt)
  }

  /** The answer of the first reply line that decides, if any does. */
  function FirstAnswer(default: Option<string>, lines: seq<string>): (r: Option<bool>)
    ensures !ValidDefault(default) ==> r == None
    ensures ValidDefault(default) && r == None ==>
      forall i :: 0 <= i < |lines| ==> Decide(default, lines[i]) == Success(Reprompt)
    ensures r.Some? ==>
      exists k :: 0 <= k < |lines| && Decide(default, lines[k]) == Success(Answer(r.value)) &&
                  forall i :: 0 <= i < k ==> Decide(default, lines[i]) == Success(Reprompt)
    decreases |lines|
  {
    if lines == [] then None
    else
      match Decide(default, lines[0])
      case Success(Answer(b)) => Some(b)
      case Success(Reprompt) => FirstAnswer(default, lines[1..])
      case Failure(_) => None
  }

  /** Asks until a reply decides. `consumed` is the number of reply lines read. */
  method Ask(default: Option<string>, lines: seq<string>) returns (r: Result<bool, AskError>, consumed: nat)
    ensures consumed <= |lines|
    ensures r.Failure? && r.error.InvalidDefault? <==> !ValidDefault(default)
    ensures !ValidDefault(default) ==>
      consumed == 0 && r.error.message == InvalidDefaultMessage(default.value)
    ensures r.Success? ==>
      0 < consumed && Decide(default, lines[consumed - 1]) == Success(Answer(r.value))
    ensures r.Success? ==>
      forall i :: 0 <= i < consumed - 1 ==> Decide(default, lines[i]) == Success(Reprompt)
    ensures r == Failure(EndOfInput) ==>
      consumed == |lines| && forall i :: 0 <= i < |lines| ==> Decide(default, lines[i]) == Success(Reprompt)
    ensures ValidDefault(default) ==>
      (r.Success? <==> FirstAnswer(default, lines).Some?) &&
      (r.Success? ==> r.value == FirstAnswer(default, lines).value)
  {
    if !ValidDefault(default) {
      return Failure(InvalidDefault(InvalidDefaultMessage(default.value))), 0;
    }
    consumed := 0;
    while consumed < |lines|
      invariant consumed <= |lines|
      invariant forall i :: 0 <= i < consumed ==> Decide(default, lines[i]) == Success(Reprompt)
      invariant FirstAnswer(default, lines[consumed..]) == FirstAnswer(default, lines)
    {
      assert lines[consumed..][1..] == lines[consumed + 1..];
      var choice := Lower(lines[consumed]);
      consumed := consumed + 1;
      if default.Some? && choice == "" {
        assert Decide(default, lines[consumed - 1]) == Success(Answer(Answers[default.value]));
        assert FirstAnswer(default, lines[consumed - 1..]) == Some(Answers[default.value]);
        return Success(Answers[default.value]), consumed;
      } else if choice in Answers {
        assert Decide(default, lines[consumed - 1]) == Success(Answer(Answers[choice]));
        assert FirstAnswer(default, lines[consumed - 1..]) == Some(Answers[choice]);
        return Success(Answers[choice]), consumed;
      }
    }
    assert lines[consumed..] == [];
    r := Failure(EndOfInput);
  }

  /** The reply is matched case-insensitively: upper-case letters in a reply
      never change its decision. */
  lemma DecideIgnoresCase(default: Option<string>, line: string)
    ensures Decide(default, Lower(line)) == Decide(default, line)
  {
    assert Lower(Lower(line)) == Lower(line);
  }
}
