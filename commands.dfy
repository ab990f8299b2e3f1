/**
 * The command handlers other than init and close. Each one checks the
 * argument count, resolves the token with parse_id, calls the Augeas engine
 * on the slot's handle and maps the engine's integer return code onto a
 * reply. The engine is opaque: its return code (and, for get and match, the
 * strings it hands back) are inputs of these functions.
 */
module Commands {
  import opened Tcl
  import opened Token

  /**
   * The common prologue of the handlers: the argument count (objc counts the
   * command word) must be the expected one, then the token must resolve; a
   * failed resolution is reported as "cannot parse token". A resolution that
   * succeeds leaves the proc's return value, the token's digits, as the
   * interpreter result (see Leftover).
   */
  function Resolve(objc: int, arity: int, usage: string, token: string, active: seq<int>): (r: Result<nat, string>)
    requires |active| == MaxCount
    ensures objc != arity ==> r == Failure(usage)
    ensures objc == arity && ParseId(token, active).Failure? ==> r == Failure(ErrorToken)
    ensures objc == arity && ParseId(token, active).Success? ==> r == Success(ParseId(token, active).value)
    ensures r.Success? ==> r.value < MaxCount && active[r.value] == 1
  {
    if objc != arity then Failure(usage)
    else match ParseId(token, active)
      case Failure(_) => Failure(ErrorToken)
      case Success(id) => Success(id)
  }

  /**
   * Save_Cmd: the result of aug_save is ignored and no result is set, so a
   * resolved token always succeeds with the leftover digits.
   */
  function SaveCmd(objc: int, token: string, active: seq<int>): (r: Reply)
    requires |active| == MaxCount
    ensures objc != 2 ==> r == Err(SaveUsage)
    ensures objc == 2 ==> (r.Ok? <==> ParseId(token, active).Success?)
    ensures objc == 2 && ParseId(token, active).Success? ==> r == Ok(Text(ParseToken(token).value))
    ensures objc == 2 && ParseId(token, active).Failure? ==> r == Err(ErrorToken)
  {
    match Resolve(objc, 2, SaveUsage, token, active)
    case Failure(m) => Err(m)
    case Success(id) => Ok(Text(Leftover(id)))
  }

  /** aug_get returns 1 for one match (with its value), 0 for none, a negative code otherwise. */
  function GetOutcome(code: int, value: string): (r: Reply)
    ensures r.Ok? <==> code == 1
    ensures r.Ok? ==> r.payload == Text(value)
    ensures r == Err(MultipleNodes) <==> code < 0
    ensures r == Err(NodeNotFound) <==> code == 0 || code > 1
  {
    if code == 1 then Ok(Text(value))
    else if code < 0 then Err(MultipleNodes)
    else Err(NodeNotFound)
  }

  function GetCmd(objc: int, token: string, active: seq<int>, code: int, value: string): (r: Reply)
    requires |active| == MaxCount
    ensures objc != 3 ==> r == Err(GetUsage)
    ensures objc == 3 && ParseId(token, active).Failure? ==> r == Err(ErrorToken)
    ensures objc == 3 && ParseId(token, active).Success? ==> r == GetOutcome(code, value)
  {
    match Resolve(objc, 3, GetUsage, token, active)
    case Failure(m) => Err(m)
    case Success(_) => GetOutcome(code, value)
  }

  /**
   * aug_set returns 0 on success and -1 when several nodes match. On success
   * no result is set, so the reply is the interpreter result left in place.
   */
  function SetOutcome(code: int, leftover: string): (r: Reply)
    ensures r.Ok? <==> code == 0
    ensures r.Ok? ==> r.payload == Text(leftover)
    ensures r == Err(MultipleNodes) <==> code == -1
    ensures r == Err(UnknownError) <==> code != 0 && code != -1
  {
    if code == 0 then Ok(Text(leftover))
    else if code == -1 then Err(MultipleNodes)
    else Err(UnknownError)
  }

  function SetCmd(objc: int, token: string, active: seq<int>, code: int): (r: Reply)
    requires |active| == MaxCount
    ensures objc != 4 ==> r == Err(SetUsage)
    ensures objc == 4 && ParseId(token, active).Failure? ==> r == Err(ErrorToken)
    ensures objc == 4 && ParseId(token, active).Success? ==> r == SetOutcome(code, ParseToken(token).value)
  {
    match Resolve(objc, 4, SetUsage, token, active)
    case Failure(m) => Err(m)
    case Success(id) => SetOutcome(code, Leftover(id))
  }

  /** aug_setm returns the number of nodes changed, 0 when none matched, -1 on failure. */
  function SetmOutcome(code: int): (r: Reply)
    ensures r.Ok? <==> code > 0
    ensures r.Ok? ==> r.payload == Number(code)
    ensures r == Err(NoNodesMatched) <==> code == 0
    ensures r == Err(CouldNotSet) <==> code == -1
    ensures r == Err(UnknownError) <==> code < -1
  {
    if code > 0 then Ok(Number(code))
    else if code == 0 then Err(NoNodesMatched)
    else if code == -1 then Err(CouldNotSet)
    else Err(UnknownError)
  }

  function SetmCmd(objc: int, token: string, active: seq<int>, code: int): (r: Reply)
    requires |active| == MaxCount
    ensures objc != 5 ==> r == Err(SetmUsage)
    ensures objc == 5 && ParseId(token, active).Failure? ==> r == Err(ErrorToken)
    ensures objc == 5 && ParseId(token, active).Success? ==> r == SetmOutcome(code)
  {
    match Resolve(objc, 5, SetmUsage, token, active)
    case Failure(m) => Err(m)
    case Success(_) => SetmOutcome(code)
  }

  /** aug_insert returns 0 on success; then no result is set. */
  function InsertOutcome(code: int, leftover: string): (r: Reply)
    ensures r.Ok? <==> code == 0
    ensures r.Ok? ==> r.payload == Text(leftover)
    ensures r == Err(InsertFailed) <==> code != 0
  {
    if code == 0 then Ok(Text(leftover)) else Err(InsertFailed)
  }

  /** Insert_Cmd: the fifth word (before) is converted and passed to the engine unchecked. */
  function InsertCmd(objc: int, token: string, active: seq<int>, code: int): (r: Reply)
    requires |active| == MaxCount
    ensures objc != 5 ==> r == Err(InsertUsage)
    ensures objc == 5 && ParseId(token, active).Failure? ==> r == Err(ErrorToken)
    ensures objc == 5 && ParseId(token, active).Success? ==> r == InsertOutcome(code, ParseToken(token).value)
  {
    match Resolve(objc, 5, InsertUsage, token, active)
    case Failure(m) => Err(m)
    case Success(id) => InsertOutcome(code, Leftover(id))
  }

  /** aug_mv returns 0 on success and 1 when the move is refused; success sets no result. */
  function MvOutcome(code: int, leftover: string): (r: Reply)
    ensures r.Ok? <==> code == 0
    ensures r.Ok? ==> r.payload == Text(leftover)
    ensures r == Err(MoveFailed) <==> code == 1
    ensures r == Err(UnknownError) <==> code != 0 && code != 1
  {
    if code == 0 then Ok(Text(leftover))
    else if code == 1 then Err(MoveFailed)
    else Err(UnknownError)
  }

  function MvCmd(objc: int, token: string, active: seq<int>, code: int): (r: Reply)
    requires |active| == MaxCount
    ensures objc != 4 ==> r == Err(MvUsage)
    ensures objc == 4 && ParseId(token, active).Failure? ==> r == Err(ErrorToken)
    ensures objc == 4 && ParseId(token, active).Success? ==> r == MvOutcome(code, ParseToken(token).value)
  {
    match Resolve(objc, 4, MvUsage, token, active)
    case Failure(m) => Err(m)
    case Success(id) => MvOutcome(code, Leftover(id))
  }

  /** aug_rm returns the number of nodes removed, or a negative code for a bad path. */
  function RmOutcome(code: int): (r: Reply)
    ensures r.Ok? <==> code > 0
    ensures r.Ok? ==> r.payload == Number(code)
    ensures r == Err(NoNodesMatched) <==> code == 0
    ensures r == Err(InvalidPath) <==> code < 0
  {
    if code > 0 then Ok(Number(code))
    else if code == 0 then Err(NoNodesMatched)
    else Err(InvalidPath)
  }

  function RmCmd(objc: int, token: string, active: seq<int>, code: int): (r: Reply)
    requires |active| == MaxCount
    ensures objc != 3 ==> r == Err(RmUsage)
    ensures objc == 3 && ParseId(token, active).Failure? ==> r == Err(ErrorToken)
    ensures objc == 3 && ParseId(token, active).Success? ==> r == RmOutcome(code)
  {
    match Resolve(objc, 3, RmUsage, token, active)
    case Failure(m) => Err(m)
    case Success(_) => RmOutcome(code)
  }

  /**
   * aug_match returns the number of matches n and an array holding at least n
   * paths, or a negative code for a bad path. No match is a success.
   */
  function MatchOutcome(code: int, matches: seq<string>): (r: Reply)
    requires code <= |matches|
    ensures r.Ok? <==> code >= 0
    ensures r.Ok? ==> r.payload.List? && |r.payload.items| == code
                      && forall i :: 0 <= i < code ==> r.payload.items[i] == matches[i]
    ensures r.Err? ==> r == Err(InvalidPath)
  {
    if code >= 0 then Ok(List(matches[..code])) else Err(InvalidPath)
  }

  /** Match_Cmd: copies the first n matches into a fresh Tcl list, one append at a time. */
  method MatchCmd(objc: int, token: string, active: seq<int>, code: int, matches: seq<string>) returns (r: Reply)
    requires |active| == MaxCount
    requires objc == 3 && ParseId(token, active).Success? ==> code <= |matches|
    ensures objc != 3 ==> r == Err(MatchUsage)
    ensures objc == 3 && ParseId(token, active).Failure? ==> r == Err(ErrorToken)
    ensures objc == 3 && ParseId(token, active).Success? ==> r == MatchOutcome(code, matches)
  {
    var resolved := Resolve(objc, 3, MatchUsage, token, active);
    if resolved.Failure? {
      return Err(resolved.error);
    }
    var list: seq<string> := [];
    if code >= 0 {
      if code > 0 {
        var i := 0;
        while i < code
          invariant 0 <= i <= code
          invariant list == matches[..i]
        {
          list := list + [matches[i]];
          i := i + 1;
        }
      }
      r := Ok(List(list));
    } else {
      r := Err(InvalidPath);
    }
  }

  /**
   * The same zero-match condition is a successful empty list for match and
   * an error for rm and setm.
   */
  lemma ZeroMatchAsymmetry(token: string, active: seq<int>, matches: seq<string>)
    requires |active| == MaxCount && ParseId(token, active).Success?
    ensures RmCmd(3, token, active, 0) == Err(NoNodesMatched)
    ensures SetmCmd(5, token, active, 0) == Err(NoNodesMatched)
    ensures MatchOutcome(0, matches) == Ok(List([]))
  {
  }

  /**
   * get reports zero matches and several matches differently, and neither
   * like a token failure.
   */
  lemma GetDistinguishesFailures(value: string)
    ensures GetOutcome(0, value) != GetOutcome(-1, value)
    ensures GetOutcome(0, value) != Err(ErrorToken) && GetOutcome(-1, value) != Err(ErrorToken)
  {
    assert NodeNotFound[0] != MultipleNodes[0];
    assert NodeNotFound[0] != ErrorToken[0] && MultipleNodes[0] != ErrorToken[0];
  }

  /**
   * As written, save, set, insert and mv succeed with the digits of the token
   * rather than with the empty result their comments promise: with slot 0 in
   * use, each of them answers `1` to `::augeas::1`.
   */
  lemma SilentSuccessLeavesDigits()
    ensures var flags := [1] + seq(MaxCount - 1, _ => 0);
            && SaveCmd(2, "::augeas::1", flags) == Ok(Text("1"))
            && SetCmd(4, "::augeas::1", flags, 0) == Ok(Text("1"))
            && InsertCmd(5, "::augeas::1", flags, 0) == Ok(Text("1"))
            && MvCmd(4, "::augeas::1", flags, 0) == Ok(Text("1"))
  {
    var flags := [1] + seq(MaxCount - 1, _ => 0);
    assert "::augeas::1" == FormatToken(1);
    ParseIdOfFormatToken(0, flags);
  }

  /**
   * A reply of save, set, insert or mv with Tcl_ResetResult done before
   * TCL_OK, as the comments describe these handlers ("Return value:
   * nothing"): success carries the empty string, failures are untouched.
   */
  function WithResultReset(reply: Reply): (r: Reply)
    ensures reply.Err? ==> r == reply
    ensures reply.Ok? ==> r == Ok(Text(""))
  {
    if reply.Ok? then Ok(Text("")) else reply
  }

  /**
   * With the result reset, every successful save, set, insert and mv returns
   * the empty result, and so does close, whose success reply as written is
   * the token's digits (the ensures of SlotTable.Close). Both differ from
   * the reply as written.
   */
  lemma {:induction false} ResetSilentSuccessIsEmpty(token: string, active: seq<int>, code: int)
    requires |active| == MaxCount && ParseId(token, active).Success?
    ensures WithResultReset(SaveCmd(2, token, active)) == Ok(Text(""))
    ensures code == 0 ==> WithResultReset(SetCmd(4, token, active, code)) == Ok(Text(""))
    ensures code == 0 ==> WithResultReset(InsertCmd(5, token, active, code)) == Ok(Text(""))
    ensures code == 0 ==> WithResultReset(MvCmd(4, token, active, code)) == Ok(Text(""))
    ensures SaveCmd(2, token, active) != WithResultReset(SaveCmd(2, token, active))
    ensures var closed := Ok(Text(ParseToken(token).value));
            WithResultReset(closed) == Ok(Text("")) && closed != WithResultReset(closed)
  {
    LeftoverIsTokenDigits(token, active);
  }
}
