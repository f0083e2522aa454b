/** What the three answers of the decoder mean: an input is incomplete just when some octets behind it complete it,
    and refused just when none do. */
module ChunkedPrefixes {
  import opened Bytes
  import opened ChunkedSpec
  import opened Powers

  /** An octet that leads towards the end of the body. */
  function Hint(d: Decoder): Byte {
    match d.state
    case Size => if d.hex == 0 then 48 else CR
    case Ext => CR
    case HeaderLf => LF
    case Data => 0
    case DataCr => CR
    case DataLf => LF
    case TrailerHead => LF
    case TrailerMiddle => LF
  }

  function Rank(d: Decoder): nat {
    match d.state
    case Size => if d.hex == 0 then 4 else 3
    case Ext => 3
    case HeaderLf => 2
    case Data => 0
    case DataCr => 6
    case DataLf => 5
    case TrailerHead => 0
    case TrailerMiddle => 1
  }

  ghost predicate Leads(d: Decoder, r: Step) {
    r.Done? || (r.Next? && (r.d.left < d.left || (r.d.left == d.left && Rank(r.d) < Rank(d))))
  }

  lemma ZeroRead(d: Decoder)
    requires d.state == Size && d.hex == 0 && d.left == 0
    ensures Hint(d) == 48 && InSize(d, 48) == Next(Decoder(Size, 0, 1), [])
  {
    assert HexValue(48) == 0;
    hide HexValue;
  }

  lemma DigitLeads(d: Decoder)
    requires d.state == Size && d.hex == 0 && d.left == 0
    ensures Leads(d, InSize(d, Hint(d)))
  {
    hide InSize, Hint;
    ZeroRead(d);
  }

  lemma LineEndLeads(left: nat, hex: nat)
    requires hex > 0
    ensures var d := Decoder(Size, left, hex); Leads(d, InSize(d, Hint(d)))
  {
  }

  lemma SizeIsZero(d: Decoder)
    requires Sound(d) && d.state == Size && d.hex == 0
    ensures d.left == 0
  {
    hide Pow;
    NoDigits();
  }

  lemma SizeLeads(d: Decoder)
    requires Sound(d) && d.state == Size
    ensures Leads(d, InSize(d, Hint(d)))
  {
    hide InSize, Leads, Hint;
    if d.hex == 0 {
      SizeIsZero(d);
      DigitLeads(d);
    } else {
      LineEndLeads(d.left, d.hex);
    }
  }

  lemma OtherLeads(trailer: bool, d: Decoder)
    requires Sound(d) && d.state != Size
    ensures Leads(d, Take(trailer, d, Hint(d)))
  {
    hide Pow, InSize;
  }

  lemma HintLeads(trailer: bool, d: Decoder)
    requires Sound(d)
    ensures Leads(d, Take(trailer, d, Hint(d)))
  {
    if d.state == Size {
      SizeLeads(d);
    } else {
      OtherLeads(trailer, d);
    }
  }

  /** Every decoder that asks for more can be brought to the end of its body. */
  lemma {:induction false} Completes(trailer: bool, d: Decoder) returns (t: seq<Byte>)
    requires Sound(d)
    ensures Decode(trailer, d, t).outcome == Complete
    decreases d.left, Rank(d)
  {
    var b := Hint(d);
    HintLeads(trailer, d);
    StaysSound(trailer, d, b);
    var r := Take(trailer, d, b);
    hide Take, Sound, Hint, Rank;
    if r.Done? {
      t := [b];
    } else {
      var rest := Completes(trailer, r.d);
      t := [b] + rest;
      assert t[0] == b && t[1..] == rest;
    }
  }

  ghost predicate Ends(trailer: bool, d: Decoder, s: seq<Byte>)
    requires Sound(d)
  {
    Decode(trailer, d, s).outcome == Complete
  }

  /** Whatever was read so far: octets that complete it exist unless it is refused, and none can be
      refused or left open once it is complete. */
  lemma AnswersAre(trailer: bool, d: Decoder, s: seq<Byte>)
    requires Sound(d)
    ensures var answer := Decode(trailer, d, s).outcome;
            && (answer == Failed <==> forall t :: !Ends(trailer, d, s + t))
            && (answer == Complete <==> forall t :: Ends(trailer, d, s + t))
            && (answer == Incomplete <==> !Ends(trailer, d, s) && exists t :: Ends(trailer, d, s + t))
  {
    hide Sound;
    var r := Decode(trailer, d, s);
    hide Decode;
    assert s + [] == s;
    forall t
      ensures Ends(trailer, d, s + t)
              <==> if r.outcome == Incomplete then Ends(trailer, r.d, t) else r.outcome == Complete
    {
      DecodeSplits(trailer, d, s, t);
    }
    if r.outcome == Incomplete {
      var t := Completes(trailer, r.d);
      assert Ends(trailer, r.d, t);
      assert Ends(trailer, d, s + t);
    }
    assert Ends(trailer, d, s + []) <==> r.outcome == Complete;
  }

  /** What a call returns: the number of octets behind the body, which are the last of the input; or -2 for an
      input that can be completed; or -1, also for such an input once the octets that are not content are at
      least 102400 and more than three quarters of all. */
  lemma ReturnsAre(trailer: bool, session: Session, s: seq<Byte>)
    requires Sound(session.d)
    ensures var c, r := Call(trailer, session, s), Decode(trailer, session.d, s);
            var read, coding := session.read + |s|, session.overhead + |s| - |r.out|;
            var refused := coding >= 102400 && 4 * (read - coding) + 4 <= read;
            && (c.ret >= 0 <==> Ends(trailer, session.d, s))
            && (c.ret >= 0 ==> c.ret == |c.behind| <= |s| && c.behind == s[|s| - c.ret..])
            && (c.ret == -2 <==> r.outcome == Incomplete && !refused)
            && (c.ret == -1 <==> r.outcome == Failed || (r.outcome == Incomplete && refused))
  {
    hide Sound, Decode;
  }
}
