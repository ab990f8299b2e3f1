/**
 * The handle table: the global arrays `augeas_objects` and
 * `augeas_object_active` of MAX_COUNT slots, cleared by Tclaugeas_Init, filled
 * by Init_Cmd (first free slot) and released by Close_Cmd. A slot is reused
 * once it has been closed.
 */
module Registry {
  import opened Tcl
  import opened Token

  /** The lowest slot whose flag is 0, or None when every slot is in use. */
  function FirstFree(flags: seq<int>): (r: Option<nat>)
    ensures r.Some? ==> r.value < |flags| && flags[r.value] == 0
    ensures r.Some? ==> forall j :: 0 <= j < r.value ==> flags[j] != 0
    ensures r.None? <==> forall j :: 0 <= j < |flags| ==> flags[j] != 0
  {
    if |flags| == 0 then None
    else if flags[0] == 0 then Some(0)
    else match FirstFree(flags[1..])
      case None => None
      case Some(k) => Some(k + 1)
  }

  /**
   * The slot search of Init_Cmd as the source writes it: every iteration tests
   * `augeas_object_active[id]` while id is still -1, so it reads the int stored
   * just before the array (atMinusOne) and never a flag of the table.
   * Returns the id the loop leaves behind, from iteration i on. Whatever the
   * flags are, a search started from slot i ends on slot i itself or reports
   * a full table.
   */
  function SlotScanAsWritten(flags: seq<int>, atMinusOne: int, i: nat): (id: int)
    requires i < MaxCount
    ensures id == if atMinusOne == 0 then i else -1
    decreases MaxCount - i
  {
    if atMinusOne == 0 then i
    else if i + 1 == MaxCount then -1
    else SlotScanAsWritten(flags, atMinusOne, i + 1)
  }

  /**
   * With slot 0 in use and slot 1 free, the search as written either hands out
   * the live slot 0 again or reports the table as full; the intended search
   * picks slot 1.
   */
  lemma SlotScanAsWrittenMisses()
    ensures var flags := [1] + seq(MaxCount - 1, _ => 0);
            && FirstFree(flags) == Some(1)
            && flags[0] == 1 && SlotScanAsWritten(flags, 0, 0) == 0
            && SlotScanAsWritten(flags, 1, 0) == -1
  {
    var flags := [1] + seq(MaxCount - 1, _ => 0);
    assert flags[1] == 0;
  }

  /** The token of the slot Init_Cmd fills resolves to that slot afterwards. */
  lemma InitTokenResolves(flags: seq<int>)
    requires |flags| == MaxCount && FirstFree(flags).Some?
    ensures var id := FirstFree(flags).value;
            ParseId(FormatToken(id + 1), flags[id := 1]) == Success(id)
  {
    var id := FirstFree(flags).value;
    ParseIdOfFormatToken(id, flags[id := 1]);
  }

  /** Once its slot is released, a token no longer resolves. */
  lemma CloseRevokesToken(token: string, flags: seq<int>)
    requires |flags| == MaxCount && ParseId(token, flags).Success?
    ensures ParseId(token, flags[ParseId(token, flags).value := 0]) ==
            Failure(NotActive(ParseToken(token).value))
  {
    var id := ParseId(token, flags).value;
    NumeralRoundTrip(id + 1);
  }

  /**
   * Slot reuse: when every slot below a closed one is in use, the next init
   * takes the same slot again, and so the token held for the closed handle
   * resolves once more, now to the new handle.
   */
  lemma StaleTokenResolvesAfterReuse(token: string, flags: seq<int>)
    requires |flags| == MaxCount && ParseId(token, flags).Success?
    requires forall j :: 0 <= j < ParseId(token, flags).value ==> flags[j] != 0
    ensures var id := ParseId(token, flags).value;
            && ParseId(token, flags[id := 0]).Failure?
            && FirstFree(flags[id := 0]) == Some(id)
            && ParseId(token, flags[id := 0][id := 1]) == Success(id)
  {
    var id := ParseId(token, flags).value;
    CloseRevokesToken(token, flags);
    var freed := flags[id := 0];
    assert freed[id] == 0;
    NumeralRoundTrip(id + 1);
  }

  /**
   * The message Close_Cmd leaves when parse_id fails, since it sets none of
   * its own: the error the parseToken proc raised for a malformed token, or
   * the proc's result, the captured digits, for a slot not in use. The two
   * cases can be told apart from the message.
   */
  function CloseFailureMessage(token: string, active: seq<int>): (m: string)
    requires |active| == MaxCount && ParseId(token, active).Failure?
    ensures ParseToken(token).None? ==> m == ErrorToken
    ensures ParseToken(token).Some? ==> m == ParseToken(token).value
    ensures IsNumeral(m) <==> ParseToken(token).Some?
  {
    assert !IsDigit(ErrorToken[0]);
    match ParseId(token, active).error
    case Malformed => ErrorToken
    case NotActive(digits) => digits
  }

  /** The two global arrays, indexed by slot; H is the opaque Augeas handle. */
  class SlotTable<H(0)> {
    const objects: array<H>
    const active: array<int>

    ghost predicate Valid()
      reads active
    {
      && objects.Length == MaxCount && active.Length == MaxCount
      && (objects as object) != (active as object)
      && forall i :: 0 <= i < MaxCount ==> active[i] == 0 || active[i] == 1
    }

    /** The storage of the globals, as C zero-initialises it. */
    constructor ()
      ensures Valid() && fresh(objects) && fresh(active)
      ensures forall i :: 0 <= i < MaxCount ==> active[i] == 0
    {
      objects := new H[MaxCount];
      active := new int[MaxCount](_ => 0);
    }

    /** The flag reset of Tclaugeas_Init: every slot becomes free. */
    method Reset()
      requires Valid()
      modifies active
      ensures Valid() && objects[..] == old(objects[..])
      ensures forall i :: 0 <= i < MaxCount ==> active[i] == 0
    {
      var i := 0;
      while i < MaxCount
        invariant 0 <= i <= MaxCount
        invariant forall j :: 0 <= j < i ==> active[j] == 0
        invariant forall j :: 0 <= j < MaxCount ==> active[j] == 0 || active[j] == 1
      {
        active[i] := 0;
        i := i + 1;
      }
    }

    /**
     * Init_Cmd after aug_init has returned the handle aug: store it in the
     * lowest free slot, mark the slot in use and return its token. A wrong
     * argument count or a full table changes nothing; the full table case
     * leaves the interpreter result empty.
     */
    method Init(objc: int, aug: H) returns (r: Reply)
      requires Valid()
      modifies objects, active
      ensures Valid()
      ensures !(2 <= objc <= 4) ==> r == Err(InitUsage)
      ensures 2 <= objc <= 4 && FirstFree(old(active[..])).None? ==> r == Err("")
      ensures r.Err? ==> active[..] == old(active[..]) && objects[..] == old(objects[..])
      ensures 2 <= objc <= 4 && FirstFree(old(active[..])).Some? ==>
                var id := FirstFree(old(active[..])).value;
                && r == Ok(Text(FormatToken(id + 1)))
                && active[..] == old(active[..])[id := 1]
                && objects[..] == old(objects[..])[id := aug]
      ensures r.Ok? ==> r.payload.Text? && ParseId(r.payload.s, active[..]).Success?
                        && objects[ParseId(r.payload.s, active[..]).value] == aug
    {
      if objc < 2 || objc > 4 {
        return Err(InitUsage);
      }
      var id := -1;
      var i := 0;
      while i < MaxCount
        invariant 0 <= i <= MaxCount && id == -1
        invariant forall j :: 0 <= j < i ==> active[j] != 0
      {
        if active[i] == 0 {
          id := i;
          break;
        }
        i := i + 1;
      }
      if id == -1 {
        return Err("");
      }
      assert FirstFree(active[..]) == Some(id);
      ghost var before := active[..];
      objects[id] := aug;
      active[id] := 1;
      r := Ok(Text(FormatToken(id + 1)));
      assert active[..] == before[id := 1];
      InitTokenResolves(before);
    }

    /**
     * Close_Cmd: release the slot the token names. A wrong argument count or a
     * token that does not resolve changes nothing. Success sets no result, so
     * the reply is the token's digits that parse_id left in the interpreter.
     */
    method Close(objc: int, token: string) returns (r: Reply)
      requires Valid()
      modifies active
      ensures Valid() && objects[..] == old(objects[..])
      ensures objc != 2 ==> r == Err(CloseUsage) && active[..] == old(active[..])
      ensures objc == 2 ==>
                var p := ParseId(token, old(active[..]));
                && (p.Failure? ==> r == Err(CloseFailureMessage(token, old(active[..]))) && active[..] == old(active[..]))
                && (p.Success? ==> r == Ok(Text(ParseToken(token).value)) && active[..] == old(active[..])[p.value := 0])
      ensures r.Ok? ==> ParseId(token, active[..]).Failure?
    {
      if objc != 2 {
        return Err(CloseUsage);
      }
      var p := ParseId(token, active[..]);
      if p.Failure? {
        return Err(CloseFailureMessage(token, active[..]));
      }
      var id := p.value;
      if active[id] == 1 {
        ghost var before := active[..];
        active[id] := 0;
        r := Ok(Text(Leftover(id)));
        assert active[..] == before[id := 0];
        CloseRevokesToken(token, before);
      } else {
        r := Err(CannotClose);
      }
    }
  }
}
