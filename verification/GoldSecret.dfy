/**
 The transaction secret of r2/r2/controllers/ipn.py: `complete_gold_purchase` joins its
 pieces with '-', and `reverse_gold_purchase` splits it again to find out what to undo.
 */
module GoldSecret {
  import opened SplitJoin

  datatype GoldType = Onetime | Autorenew | Creddits | Gift | Code

  function Name(t: GoldType): string {
    match t
    case Onetime => "onetime"
    case Autorenew => "autorenew"
    case Creddits => "creddits"
    case Gift => "gift"
    case Code => "code"
  }

  /** The pieces joined by `complete_gold_purchase`; the recipient is there for gifts only. */
  function Pieces(t: GoldType, recipient: string, code: string): seq<string> {
    [Name(t)] + (if t.Gift? then [recipient] else []) + [code]
  }

  function Secret(t: GoldType, recipient: string, code: string): string {
    Join(Pieces(t, recipient, code), '-')
  }

  /** What `reverse_gold_purchase` reads off a secret; `Unreadable` is the ValueError of
      unpacking `pieces[1:]` into two names. */
  datatype Reading = ForBuyer(goldtype: string) | ForRecipient(recipient: string, code: string) | Unreadable

  function Read(secret: string): Reading {
    var pieces := Split(secret, '-');
    if pieces[0] != Name(Gift) then ForBuyer(pieces[0])
    else if |pieces| == 3 then ForRecipient(pieces[1], pieces[2])
    else Unreadable
  }

  // ---------------------------------------------------------------- round trip

  lemma NamesHaveNoDash(t: GoldType)
    ensures '-' !in Name(t)
  {
  }

  lemma SecretText(t: GoldType, recipient: string, code: string)
    ensures Secret(t, recipient, code)
         == if t.Gift? then Name(t) + "-" + (recipient + "-" + code) else Name(t) + "-" + code
  {
    var pieces := Pieces(t, recipient, code);
    if t.Gift? {
      assert pieces == [Name(t), recipient, code];
      assert pieces[1..] == [recipient, code];
      JoinTwo(recipient, code, '-');
    } else {
      assert pieces == [Name(t), code];
      JoinTwo(Name(t), code, '-');
    }
  }

  /** The pieces of a printed secret, whatever dashes the recipient and the code contain. */
  lemma SplitOfSecret(t: GoldType, recipient: string, code: string)
    ensures Split(Secret(t, recipient, code), '-')
         == [Name(t)] + (if t.Gift? then Split(recipient, '-') else []) + Split(code, '-')
  {
    NamesHaveNoDash(t);
    SplitWithoutSeparator(Name(t), '-');
    SecretText(t, recipient, code);
    if t.Gift? {
      SplitAcross(Name(t), recipient + "-" + code, '-');
      SplitAcross(recipient, code, '-');
    } else {
      SplitAcross(Name(t), code, '-');
    }
  }

  /** The gold type always survives; for the types that pay the buyer nothing else is read. */
  lemma BuyerSecretRoundTrip(t: GoldType, code: string)
    requires !t.Gift?
    ensures Read(Secret(t, "", code)) == ForBuyer(Name(t))
  {
    SplitOfSecret(t, "", code);
    assert Name(t)[0] != Name(Gift)[0] || |Name(t)| != |Name(Gift)|;
  }

  /** A gift is read back as printed if and only if neither the recipient's name nor the
      trailing code contains a dash; otherwise it cannot be read at all. */
  lemma GiftSecretRoundTripIff(recipient: string, code: string)
    ensures Read(Secret(Gift, recipient, code)) == ForRecipient(recipient, code)
            <==> '-' !in recipient && '-' !in code
    ensures Read(Secret(Gift, recipient, code)) == Unreadable
            <==> '-' in recipient || '-' in code
  {
    SplitOfSecret(Gift, recipient, code);
    OnePieceIffNoSeparator(recipient, '-');
    OnePieceIffNoSeparator(code, '-');
    if '-' !in recipient && '-' !in code {
      SplitWithoutSeparator(recipient, '-');
      SplitWithoutSeparator(code, '-');
    }
  }
}
