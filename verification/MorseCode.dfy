/**
 The code that is sent, in dits and dahs: letters and figures as Recommendation
 ITU-R M.1677 has them, and the signs as the source lists them.
*/
module MorseCode {
  import opened Bytes
  import opened Morse

  /** Space (no signs at all) and punctuation. */
  function SignCode(code: nat): string
    requires 32 <= code < 48
  {
    match code
    case 32 => "" case 33 => "-.-.--" case 34 => ".-..-." case 35 => "--.--" case 36 => "..--." case 37 => ".--.."
    case 38 => ".-..." case 39 => ".----." case 40 => "-.--." case 41 => "-.--.-" case 42 => ".--.-" case 43 => ".-.-."
    case 44 => "--..--" case 45 => "-....-" case 46 => ".-.-.-" case 47 => "-..-."
  }

  /** Figures and the signs behind them. */
  function FigureCode(code: nat): string
    requires 48 <= code < 65
  {
    match code
    case 48 => "-----" case 49 => ".----" case 50 => "..---" case 51 => "...--" case 52 => "....-" case 53 => "....."
    case 54 => "-...." case 55 => "--..." case 56 => "---.." case 57 => "----." case 58 => "---..." case 59 => "-.-.-."
    case 60 => ".-..-" case 61 => "-...-" case 62 => "--.-." case 63 => "..--.." case 64 => ".--.-."
  }

  /** From A on. */
  function FirstLetters(code: nat): string
    requires 65 <= code < 78
  {
    match code
    case 65 => ".-" case 66 => "-..." case 67 => "-.-." case 68 => "-.." case 69 => "." case 70 => "..-."
    case 71 => "--." case 72 => "...." case 73 => ".." case 74 => ".---" case 75 => "-.-" case 76 => ".-.."
    case 77 => "--"
  }

  /** From N on, and the brackets. */
  function LastLetters(code: nat): string
    requires 78 <= code < 96
  {
    match code
    case 78 => "-." case 79 => "---" case 80 => ".--." case 81 => "--.-" case 82 => ".-." case 83 => "..."
    case 84 => "-" case 85 => "..-" case 86 => "...-" case 87 => ".--" case 88 => "-..-" case 89 => "-.--"
    case 90 => "--.." case 91 => "---." case 92 => "...-..." case 93 => "-.-.." case 94 => "----" case 95 => "..--.-"
  }

  function Code(code: nat): string
    requires 32 <= code < 96
  {
    if code < 48 then SignCode(code) else if code < 65 then FigureCode(code)
    else if code < 78 then FirstLetters(code) else LastLetters(code)
  }

  /** A dah is a one. */
  function SignBit(signs: string, k: nat): byte
    requires k < |signs|
  {
    if signs[k] == '-' then 1 else 0
  }

  /** A one in front, and then the signs. */
  function PatternOf(signs: string): byte
    requires |signs| <= 7
  {
    var p1 := if |signs| > 0 then 2 + SignBit(signs, 0) else 1;
    var p2 := if |signs| > 1 then 2 * p1 + SignBit(signs, 1) else p1;
    var p3 := if |signs| > 2 then 2 * p2 + SignBit(signs, 2) else p2;
    var p4 := if |signs| > 3 then 2 * p3 + SignBit(signs, 3) else p3;
    var p5 := if |signs| > 4 then 2 * p4 + SignBit(signs, 4) else p4;
    var p6 := if |signs| > 5 then 2 * p5 + SignBit(signs, 5) else p5;
    if |signs| > 6 then 2 * p6 + SignBit(signs, 6) else p6
  }

  lemma {:induction false} FirstSignsAreSent(code: nat)
    requires 32 <= code < 40
    ensures |SignCode(code)| <= 7 && MorseHw(code - 32) == PatternOf(SignCode(code))
  {
  }

  lemma {:induction false} LastSignsAreSent(code: nat)
    requires 40 <= code < 48
    ensures |SignCode(code)| <= 7 && MorseHw(code - 32) == PatternOf(SignCode(code))
  {
  }

  lemma {:induction false} FiguresAreSent(code: nat)
    requires 48 <= code < 57
    ensures |FigureCode(code)| <= 7 && MorseHw(code - 32) == PatternOf(FigureCode(code))
  {
  }

  lemma {:induction false} LaterSignsAreSent(code: nat)
    requires 57 <= code < 65
    ensures |FigureCode(code)| <= 7 && MorseHw(code - 32) == PatternOf(FigureCode(code))
  {
  }

  lemma {:induction false} FirstAreSent(code: nat)
    requires 65 <= code < 78
    ensures |FirstLetters(code)| <= 7 && MorseHw(code - 32) == PatternOf(FirstLetters(code))
  {
  }

  lemma {:induction false} MiddleAreSent(code: nat)
    requires 78 <= code < 87
    ensures |LastLetters(code)| <= 7 && MorseHw(code - 32) == PatternOf(LastLetters(code))
  {
  }

  lemma {:induction false} LastAreSent(code: nat)
    requires 87 <= code < 96
    ensures |LastLetters(code)| <= 7 && MorseHw(code - 32) == PatternOf(LastLetters(code))
  {
  }

  /** The table has the code of every character. */
  lemma {:induction false} TableIsCode(code: nat)
    requires 32 <= code < 96
    ensures |Code(code)| <= 7 && MorseHw(code - 32) == PatternOf(Code(code))
  {
    hide MorseHw, PatternOf;
    if code < 40 {
      FirstSignsAreSent(code);
    } else if code < 48 {
      LastSignsAreSent(code);
    } else if code < 57 {
      FiguresAreSent(code);
    } else if code < 65 {
      LaterSignsAreSent(code);
    } else if code < 78 {
      FirstAreSent(code);
    } else if code < 87 {
      MiddleAreSent(code);
    } else {
      LastAreSent(code);
    }
  }
}
