/**
 * The record the trivia provider returns for one multiple-choice question
 * (the objects of `response.data.results` used by Quiz.jsx and Question.jsx).
 */
module Trivia {

  datatype QuestionRecord = QuestionRecord(
    question: string,
    correctAnswer: string,
    incorrectAnswers: seq<string>)

}
