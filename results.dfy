/**
 * Error and optional-value types shared by every module.
 *
 * The source signals every failure by raising `ValueError` with a message;
 * the model returns `Err(e)` instead, with one constructor per message so
 * that a contract can say which check fired.
 */
module Results {

  datatype Option<T> = None | Some(value: T)

  datatype Error =
    | BadLength        // parse_card: not exactly two characters
    | BadRank          // parse_card: unknown rank symbol
    | BadSuit          // parse_card: unknown suit symbol
    | BadCard          // card_str: value or suit outside the alphabets
    | BadDealCount     // deal: n < 0 or n > |deck|
    | WrongCardCount   // rank5 / rank7: not exactly 5 / 7 cards
    | DuplicateCards   // rank7 / equity: the same card twice
    | WrongHoleCount   // equity: a hole hand without exactly 2 cards
    | BoardTooLarge    // equity: more than 5 board cards
    | TooManyUnknown   // equity: more than 2 unknown board cards without opt-in

  datatype Result<T> = Ok(value: T) | Err(error: Error)
}
