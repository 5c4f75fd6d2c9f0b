/** Record shapes of the quiz: a game of the question bank and a question
    selected from it for the session. */
module Types {

  /** A JavaScript value that may be `undefined`. */
  datatype Option<+T> = None | Some(value: T)

  /** One entry of the question bank: the game's name and its question texts. */
  datatype Game = Game(name: string, questions: seq<string>)

  /** A question of the session. `question` is `None` when it was read past the
      end of its game's list (JavaScript yields `undefined` there); `answer`
      is optional in the record shape. */
  datatype Question = Question(game: string, question: Option<string>, answer: Option<string>)

  /** Reading `s[i]` from a JavaScript array: `undefined` out of range. */
  function ArrayAt(s: seq<string>, i: nat): (r: Option<string>)
    ensures r.Some? <==> i < |s|
    ensures r.Some? ==> r.value in s
  {
    if i < |s| then Some(s[i]) else None
  }
}
