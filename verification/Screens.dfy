/** From a message to the list of screens: process_message_body of libsol/message.c with the
    summary it fills, and the call that finalizes the summary in src/handle_sign_message.c. */
module Screens {
  import opened Bytes
  import opened Wire
  import opened Dispatch
  import opened Summary
  import opened Items
  import opened Slots
  import opened Message

  /** What the user is shown of a screen, in order. */
  function ScreenItems(d: Drawing, s: Screen, v: View, warned: bool): seq<Item> {
    [d.primary] + GeneralItems(d, s.fee, warned) + IfUsed(NonceItem(s, v, "Nonce account"))
    + IfUsed(NonceItem(s, v, "Nonce authority"))
  }

  lemma HoldsShows(t: TransactionSummary, d: Drawing, s: Screen, v: View, warned: bool)
    requires Holds(t, d, s, v, warned) && !t.feePayer.Used()
    ensures t.primary.Used() && t.Shown() == ScreenItems(d, s, v, warned)
  {
    var items := ScreenItems(d, s, v, warned);
    assert items + [] == items;
  }

  /** The printers of one message: they depend on whether a warning is shown. */
  ghost predicate ShownWith(body: seq<byte>, h: MessageHeader, r: Recogniser, v: View, s: Screen, warned: bool) {
    Shown(body, h, r, Printers(v, warned), s, warned)
  }

  lemma ShownFrom(body: seq<byte>, h: MessageHeader, r: Recogniser, v: View, display: seq<Info>, w: bool)
    requires Understood(body, h, r, display, w)
    ensures forall s, warned :: ShownWith(body, h, r, v, s, warned) <==>
                                  warned == w && ShownAs(display, Printers(v, w), s)
  {
  }

  /** process_message_body with an empty summary. */
  method ProcessAndDraw(t: TransactionSummary, body: seq<byte>, h: MessageHeader, r: Recogniser, v: View)
      returns (o: Outcome, screen: Option<Screen>, warned: bool)
    requires IsReset(t) && |h.prefix.pubkeys| == h.prefix.counts.pubkeysLength * PUBKEY_SIZE
    modifies t`primary, t`nonceAccount, t`nonceAuthority, t.general
    ensures t.Valid() && (o.Refused? <==> screen.None?)
    ensures screen.None? ==> forall s, w :: !ShownWith(body, h, r, v, s, w)
    ensures screen.Some? ==> ShownWith(body, h, r, v, screen.value, warned) && ScreenDrawing(screen.value, v).Some?
                             && (o.Overrun? <==> Overruns(screen.value, v, warned))
    ensures o.Drawn? ==> Holds(t, ScreenDrawing(screen.value, v).value, screen.value, v, warned)
  {
    var rc, display;
    rc, display, warned := Understand(body, h, r);
    if rc != 0 {
      return Refused, None, warned;
    }
    o, screen := DrawTransaction(t, display, v, warned);
    ShownFrom(body, h, r, v, display, warned);
  }

  /** A message from its bytes to the kinds of its screens. Once it is drawn, finalizing the
      summary does not fail, and what is listed is the primary item, the warning, the items
      of the pattern, the fee and the nonce, in this order. */
  method ShowMessage(t: TransactionSummary, body: seq<byte>, h: MessageHeader, r: Recogniser, v: View,
                     kinds: array<ItemKind>)
      returns (o: Outcome, screen: Option<Screen>, warned: bool, length: nat)
    requires IsReset(t) && !t.feePayer.Used() && kinds.Length == MAX_TRANSACTION_SUMMARY_ITEMS
    requires |h.prefix.pubkeys| == h.prefix.counts.pubkeysLength * PUBKEY_SIZE
    modifies t`primary, t`nonceAccount, t`nonceAuthority, t.general, kinds
    ensures t.Valid() && (o.Refused? <==> screen.None?)
    ensures screen.None? ==> forall s, w :: !ShownWith(body, h, r, v, s, w)
    ensures screen.Some? ==> ShownWith(body, h, r, v, screen.value, warned) && ScreenDrawing(screen.value, v).Some?
                             && (o.Overrun? <==> Overruns(screen.value, v, warned))
    ensures o.Drawn? ==>
              var items := ScreenItems(ScreenDrawing(screen.value, v).value, screen.value, v, warned);
              length <= kinds.Length && t.Shown() == items && kinds[..length] == Kinds(items)
  {
    length := 0;
    o, screen, warned := ProcessAndDraw(t, body, h, r, v);
    if o.Drawn? {
      HoldsShows(t, ScreenDrawing(screen.value, v).value, screen.value, v, warned);
      var rc;
      rc, length := t.Finalize(kinds);
    }
  }

  /** Exactly the messages that need more items than there are: a pattern that fills the
      summary beside a fee, or beside a warning one that leaves fewer than two items, or
      fewer than three when there is a fee. */
  lemma MessageOverrunsIff(body: seq<byte>, h: MessageHeader, r: Recogniser, v: View, s: Screen, warned: bool)
    requires ShownWith(body, h, r, v, s, warned)
    ensures Overruns(s, v, warned) <==>
              if warned then (if s.fee == 0 then LeavesOne(s.pattern, s.infos, v) else LeavesTwo(s.pattern, s.infos, v))
              else s.fee != 0 && LeavesNone(s.pattern, s.infos, v)
  {
    var display :| Understood(body, h, r, display, warned) && ShownAs(display, Printers(v, warned), s);
    if warned {
      WarningFitsIff(display, v, s);
    } else {
      FeeFitsIff(display, v, s);
    }
  }

  /** The screens of a message in their order: the primary item, the two lines of the
      warning, the items of the pattern, the fee, and in expert mode the nonce. */
  lemma ScreenOrder(d: Drawing, s: Screen, v: View, warned: bool)
    ensures ScreenItems(d, s, v, warned) ==
              [d.primary]
              + (if warned then [Item(Text, "Extension Warning"), Item(Text, "")] else [])
              + d.general
              + (if s.fee != 0 then [Item(Amount, "Max fees")] else [])
              + (if s.nonce && v.expert then [Item(Pubkey, "Nonce account"), Item(Pubkey, "Nonce authority")] else [])
  {
    var nonce := if s.nonce && v.expert then [Item(Pubkey, "Nonce account"), Item(Pubkey, "Nonce authority")] else [];
    assert nonce == IfUsed(NonceItem(s, v, "Nonce account")) + IfUsed(NonceItem(s, v, "Nonce authority"));
  }
}
