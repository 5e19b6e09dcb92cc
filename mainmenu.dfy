/**
 * src/MainMenu.js: the room-code form. A code is accepted by the pattern
 * `^(|[a-z0-9]+)$` with the case-insensitive flag; an accepted value
 * becomes the current room code, and submitting reports the code or an
 * error.
 */
module MainMenu {

  /** `[a-z0-9]` under the `i` flag: an ASCII letter of either case or a digit. */
  predicate IsAlphaNumeric(c: char) {
    ('a' <= c <= 'z') || ('A' <= c <= 'Z') || ('0' <= c <= '9')
  }

  /** `[a-z0-9]+` anchored at both ends: one matching character, then the rest of `s` matched the same way. */
  predicate MatchesPlus(s: string) {
    |s| >= 1 && IsAlphaNumeric(s[0]) && (|s| == 1 || MatchesPlus(s[1..]))
  }

  /** `/^(|[a-z0-9]+)$/i`: the empty alternative or the repetition. */
  predicate MatchesRoomCode(value: string) {
    value == "" || MatchesPlus(value)
  }

  /** The repetition matches exactly the non-empty strings of letters and digits. */
  lemma {:induction false} MatchesPlusAll(s: string)
    ensures MatchesPlus(s) <==> |s| >= 1 && forall i :: 0 <= i < |s| ==> IsAlphaNumeric(s[i])
  {
    if |s| > 1 {
      MatchesPlusAll(s[1..]);
      assert forall i :: 1 <= i < |s| ==> s[i] == s[1..][i - 1];
    }
  }

  /**
   * A room code is valid exactly when every character is an ASCII letter
   * or digit: the empty code is accepted, and a code with any other
   * character (a space, punctuation, a non-ASCII letter) is rejected.
   */
  lemma RoomCodeAlphaNumeric(value: string)
    ensures MatchesRoomCode(value) <==> forall i :: 0 <= i < |value| ==> IsAlphaNumeric(value[i])
    ensures MatchesRoomCode("")
    ensures (exists i :: 0 <= i < |value| && !IsAlphaNumeric(value[i])) ==> !MatchesRoomCode(value)
  {
    MatchesPlusAll(value);
  }

  /** What `submitFunc` calls back with. */
  datatype Outcome = OnSubmit(roomCode: string) | OnError(message: string)

  /** The message `submitFunc` reports for an invalid code. */
  const InvalidCodeMessage: string := "Room code must be alphanumeric"

  /** The `MainMenu` component's state: the room code typed so far. */
  class Menu {
    var roomCode: string

    /** Only accepted values are ever stored. */
    ghost predicate Valid()
      reads this
    {
      MatchesRoomCode(roomCode)
    }

    /** `useState("")`. */
    constructor()
      ensures roomCode == "" && Valid()
    {
      roomCode := "";
    }

    /** `validate`: test `value`; store it as the room code only when it is accepted. */
    method Validate(value: string) returns (isAlphaNumeric: bool)
      modifies this
      ensures isAlphaNumeric == MatchesRoomCode(value)
      ensures roomCode == (if isAlphaNumeric then value else old(roomCode))
      ensures old(Valid()) ==> Valid()
    {
      isAlphaNumeric := MatchesRoomCode(value);
      if isAlphaNumeric {
        roomCode := value;
      }
    }

    /**
     * `submitFunc`: report the current code when it validates, otherwise
     * the error. Validating the stored code leaves it as it was, and since
     * only accepted codes are stored, a menu kept valid always submits.
     */
    method Submit() returns (outcome: Outcome)
      modifies this
      ensures roomCode == old(roomCode)
      ensures outcome == (if MatchesRoomCode(roomCode) then OnSubmit(roomCode) else OnError(InvalidCodeMessage))
      ensures old(Valid()) ==> outcome == OnSubmit(roomCode)
    {
      var ok := Validate(roomCode);
      if ok {
        outcome := OnSubmit(roomCode);
      } else {
        outcome := OnError(InvalidCodeMessage);
      }
    }
  }
}
