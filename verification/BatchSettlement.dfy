/** The batch-settlement checker of api_server/batch_settlement.py, against a declarative
    reading of the rules for EVM payment requirements. */
module BatchSettlement {
  import opened Wrappers
  import opened Json
  import opened Text

  const FINDINGS_CAP := 20
  const WITHDRAW_DELAY_MIN := 900
  const WITHDRAW_DELAY_MAX := 2_592_000

  datatype Finding = Finding(acceptsIndex: nat, field: string, code: string)

  // ----- the single checks, as the code runs them -----

  predicate IsHex(c: char) {
    '0' <= c <= '9' || 'a' <= c <= 'f' || 'A' <= c <= 'F'
  }

  /** `0x[0-9a-fA-F]{40}` */
  predicate IsAddress(s: string) {
    |s| == 42 && s[0] == '0' && s[1] == 'x' && forall i :: 2 <= i < 42 ==> IsHex(s[i])
  }

  /** 0x and forty hexadecimal digits, large or small. */
  lemma AddressMeans(s: string)
    ensures IsAddress(s) <==>
              |s| == 42 && s[..2] == "0x" && forall i :: 2 <= i < 42 ==> '0' <= s[i] <= '9' || 'a' <= LowerChar(s[i]) <= 'f'
  {
    assert |s| >= 2 ==> s[..2] == [s[0], s[1]];
  }

  predicate IsZeroAddress(s: string)
    requires IsAddress(s)
  {
    forall i :: 2 <= i < 42 ==> s[i] == '0'
  }

  function CheckAddress(value: Json, index: nat, field: string, prefix: string): seq<Finding> {
    if value.Null? || (value.Str? && Strip(value.s) == "") then [Finding(index, field, "missing_" + prefix)]
    else if !value.Str? || !IsAddress(value.s) then [Finding(index, field, "invalid_" + prefix)]
    else if IsZeroAddress(value.s) then [Finding(index, field, "zero_" + prefix)]
    else []
  }

  /** `eip155:[1-9][0-9]*` */
  predicate IsNetwork(s: string) {
    |s| >= 7 && s[..7] == "eip155:" && PositiveDecimal(s[7..])
  }

  /** `_parse_withdraw_delay`, branch by branch. */
  function ParseWithdrawDelay(value: Json): Option<int> {
    match value
    case Int(n) => Some(n)
    case Str(raw) =>
      var s := Strip(raw);
      if s == "" || !(PositiveDecimal(s) || s == "0") then
        if |s| >= 2 && s[0] == '0' && AllDigits(s) then None
        else if s != "" && AllDigits(s) then Some(DigitsValue(s))
        else None
      else if |s| > 1 && s[0] == '0' then None
      else Some(DigitsValue(s))
    case _ => None
  }

  function CheckNetwork(e: map<string, Json>, i: nat): seq<Finding> {
    var v := Get(e, "network");
    if !v.Str? || !IsNetwork(Strip(v.s)) then [Finding(i, "network", "invalid_network")] else []
  }

  function CheckAmount(e: map<string, Json>, i: nat): seq<Finding> {
    var v := Get(e, "amount");
    if !v.Str? || !PositiveDecimal(v.s) then [Finding(i, "amount", "invalid_amount")] else []
  }

  /** payTo is canonical; pay_to stands in for it only when it is missing. */
  function CheckPayTo(e: map<string, Json>, i: nat): seq<Finding> {
    var camel, snake := Get(e, "payTo"), Get(e, "pay_to");
    if !camel.Null? then
      (if !snake.Null? && !Equal(camel, snake) then [Finding(i, "payTo", "payto_alias_conflict")] else [])
      + CheckAddress(camel, i, "payTo", "pay_to")
    else if !snake.Null? then CheckAddress(snake, i, "pay_to", "pay_to")
    else [Finding(i, "payTo", "missing_pay_to")]
  }

  predicate UsesAlias(e: map<string, Json>) {
    Get(e, "payTo").Null? && !Get(e, "pay_to").Null?
  }

  function CheckDelay(x: map<string, Json>, i: nat): seq<Finding> {
    if "withdrawDelay" !in x then [Finding(i, "extra.withdrawDelay", "missing_withdraw_delay")]
    else
      var delay := ParseWithdrawDelay(x["withdrawDelay"]);
      if delay.None? then [Finding(i, "extra.withdrawDelay", "invalid_withdraw_delay")]
      else if delay.value < WITHDRAW_DELAY_MIN || delay.value > WITHDRAW_DELAY_MAX then
        [Finding(i, "extra.withdrawDelay", "withdraw_delay_out_of_range")]
      else []
  }

  function CheckText(x: map<string, Json>, i: nat, name: string): seq<Finding> {
    var v := Get(x, name);
    if !v.Str? || Strip(v.s) == "" then [Finding(i, "extra." + name, "missing_or_empty_" + name)] else []
  }

  function CheckMethod(x: map<string, Json>, i: nat): seq<Finding> {
    if "assetTransferMethod" in x && x["assetTransferMethod"] !in {Str("eip3009"), Str("permit2")} then
      [Finding(i, "extra.assetTransferMethod", "invalid_asset_transfer_method")]
    else []
  }

  function CheckExtra(e: map<string, Json>, i: nat): seq<Finding> {
    var extra := Get(e, "extra");
    if !extra.Obj? then [Finding(i, "extra", "invalid_extra")]
    else
      var x := extra.fields;
      CheckAddress(Get(x, "receiverAuthorizer"), i, "extra.receiverAuthorizer", "receiver_authorizer")
      + CheckDelay(x, i) + CheckText(x, i, "name") + CheckText(x, i, "version") + CheckMethod(x, i)
  }

  /** Everything wrong with one entry. */
  function EntryFindings(e: map<string, Json>, i: nat): seq<Finding> {
    CheckNetwork(e, i) + CheckAmount(e, i) + CheckAddress(Get(e, "asset"), i, "asset", "asset")
    + CheckPayTo(e, i) + CheckExtra(e, i)
  }

  /** A transfer method that is a list or an object cannot be looked up in a frozenset: the
      check raises TypeError. */
  predicate Unhashable(e: map<string, Json>) {
    var extra := Get(e, "extra");
    extra.Obj? && "assetTransferMethod" in extra.fields
    && (extra.fields["assetTransferMethod"].Arr? || extra.fields["assetTransferMethod"].Obj?)
  }

  /** A withdrawal delay that is a canonical numeral, but too long for `int`: the check raises
      ValueError. */
  predicate LongDelay(e: map<string, Json>) {
    var extra := Get(e, "extra");
    extra.Obj? && Get(extra.fields, "withdrawDelay").Str?
    && var s := Strip(Get(extra.fields, "withdrawDelay").s);
       Canonical(s) && |s| > MAX_DIGITS
  }

  datatype Raised = TypeError | ValueError

  /** How the check of an entry fails, if it does: the delay is looked at first. */
  function EntryError(e: map<string, Json>): Option<Raised> {
    if LongDelay(e) then Some(ValueError) else if Unhashable(e) then Some(TypeError) else None
  }

  // ----- the rules, declaratively -----

  /** A JSON integer, or the canonical numeral of a number as text. */
  ghost predicate DenotesDelay(v: Json, d: int) {
    (v.Int? && v.n == d) || (d >= 0 && v.Str? && Strip(v.s) == ToDecimal(d))
  }

  ghost predicate LiveAddress(v: Json) {
    v.Str? && IsAddress(v.s) && exists i :: 2 <= i < 42 && v.s[i] != '0'
  }

  ghost predicate NonBlank(v: Json) {
    v.Str? && Strip(v.s) != ""
  }

  ghost predicate NetworkRule(e: map<string, Json>) {
    exists chain: nat :: chain > 0 && Get(e, "network").Str? && Strip(Get(e, "network").s) == "eip155:" + ToDecimal(chain)
  }

  ghost predicate AmountRule(e: map<string, Json>) {
    exists amount: nat :: amount > 0 && Get(e, "amount") == Str(ToDecimal(amount))
  }

  ghost predicate PayToRule(e: map<string, Json>) {
    && LiveAddress(if !Get(e, "payTo").Null? then Get(e, "payTo") else Get(e, "pay_to"))
    && (!Get(e, "payTo").Null? && !Get(e, "pay_to").Null? ==> Get(e, "payTo") == Get(e, "pay_to"))
  }

  ghost predicate DelayRule(x: map<string, Json>) {
    exists d :: 900 <= d <= 2_592_000 && DenotesDelay(Get(x, "withdrawDelay"), d)
  }

  ghost predicate ExtraRule(e: map<string, Json>) {
    && Get(e, "extra").Obj?
    && var x := Get(e, "extra").fields;
       && LiveAddress(Get(x, "receiverAuthorizer"))
       && DelayRule(x)
       && NonBlank(Get(x, "name")) && NonBlank(Get(x, "version"))
       && ("assetTransferMethod" in x ==> x["assetTransferMethod"] in {Str("eip3009"), Str("permit2")})
  }

  /** A conforming batch-settlement entry. */
  ghost predicate Conforms(e: map<string, Json>) {
    NetworkRule(e) && AmountRule(e) && LiveAddress(Get(e, "asset")) && PayToRule(e) && ExtraRule(e)
  }

  // ----- each check decides its rule -----

  /** The parser accepts exactly JSON integers and canonical numerals, with their value. */
  lemma DelayIsCanonicalNumeral(v: Json, d: int)
    ensures ParseWithdrawDelay(v) == Some(d) <==> DenotesDelay(v, d)
  {
    if v.Str? {
      var s := Strip(v.s);
      if Canonical(s) {
        CanonicalPrintsBack(s);
      }
      if d >= 0 && s == ToDecimal(d) {
        DecimalReadsBack(d);
      }
    }
  }

  lemma SplitConcat(a: string, b: string)
    ensures (a + b)[..|a|] == a && (a + b)[|a|..] == b
  {
  }

  lemma NetworkDecides(e: map<string, Json>, i: nat)
    ensures CheckNetwork(e, i) == [] <==> NetworkRule(e)
  {
    var v := Get(e, "network");
    hide Strip, PositiveDecimal, ToDecimal;
    if v.Str? {
      var s := Strip(v.s);
      if |s| >= 7 {
        PositiveDecimalIff(s[7..]);
        if IsNetwork(s) {
          var n: nat :| n > 0 && s[7..] == ToDecimal(n);
          assert s == s[..7] + s[7..];
        }
      }
      forall chain: nat | chain > 0 && s == "eip155:" + ToDecimal(chain) ensures IsNetwork(s) {
        SplitConcat("eip155:", ToDecimal(chain));
        assert s[7..] == ToDecimal(chain);
        PositiveDecimalIff(s[7..]);
      }
    }
  }

  lemma AmountDecides(e: map<string, Json>, i: nat)
    ensures CheckAmount(e, i) == [] <==> AmountRule(e)
  {
    var v := Get(e, "amount");
    if v.Str? {
      PositiveDecimalIff(v.s);
      if PositiveDecimal(v.s) {
        var n: nat :| n > 0 && v.s == ToDecimal(n);
        assert Get(e, "amount") == Str(ToDecimal(n));
      }
      forall n: nat | n > 0 && Get(e, "amount") == Str(ToDecimal(n)) ensures PositiveDecimal(v.s) {
        assert v.s == ToDecimal(n);
      }
    }
  }

  lemma AddressIsNotBlank(s: string)
    requires IsAddress(s)
    ensures Strip(s) != ""
  {
    assert StripLeft(s) == s;
    assert !IsSpace(s[41]);
  }

  lemma AddressDecides(v: Json, i: nat, field: string, prefix: string)
    ensures CheckAddress(v, i, field, prefix) == [] <==> LiveAddress(v)
  {
    if v.Str? && IsAddress(v.s) {
      AddressIsNotBlank(v.s);
    }
  }

  lemma PayToDecides(e: map<string, Json>, i: nat)
    ensures CheckPayTo(e, i) == [] <==> PayToRule(e)
  {
    AddressDecides(Get(e, "payTo"), i, "payTo", "pay_to");
    AddressDecides(Get(e, "pay_to"), i, "pay_to", "pay_to");
  }

  lemma DelayDecides(x: map<string, Json>, i: nat)
    ensures CheckDelay(x, i) == [] <==> DelayRule(x)
  {
    var v := Get(x, "withdrawDelay");
    forall d ensures ParseWithdrawDelay(v) == Some(d) <==> DenotesDelay(v, d) {
      DelayIsCanonicalNumeral(v, d);
    }
    if CheckDelay(x, i) == [] {
      assert DenotesDelay(v, ParseWithdrawDelay(v).value);
    }
  }

  lemma ExtraDecides(e: map<string, Json>, i: nat)
    ensures CheckExtra(e, i) == [] <==> ExtraRule(e)
  {
    if Get(e, "extra").Obj? {
      var x := Get(e, "extra").fields;
      AddressDecides(Get(x, "receiverAuthorizer"), i, "extra.receiverAuthorizer", "receiver_authorizer");
      DelayDecides(x, i);
      hide CheckAddress, CheckDelay, LiveAddress, DelayRule;
    }
  }

  /** Sound and complete for one entry: nothing is found exactly when the entry conforms. */
  lemma EntryDecides(e: map<string, Json>, i: nat)
    ensures EntryFindings(e, i) == [] <==> Conforms(e)
  {
    NetworkDecides(e, i);
    AmountDecides(e, i);
    AddressDecides(Get(e, "asset"), i, "asset", "asset");
    PayToDecides(e, i);
    ExtraDecides(e, i);
    hide CheckNetwork, CheckAmount, CheckAddress, CheckPayTo, CheckExtra, LiveAddress, NetworkRule, AmountRule, PayToRule, ExtraRule;
    assert |EntryFindings(e, i)|
        == |CheckNetwork(e, i)| + |CheckAmount(e, i)| + |CheckAddress(Get(e, "asset"), i, "asset", "asset")|
           + |CheckPayTo(e, i)| + |CheckExtra(e, i)|;
  }

  ghost predicate AtMost(fs: seq<Finding>, n: nat, i: nat) {
    |fs| <= n && forall f :: f in fs ==> f.acceptsIndex == i
  }

  lemma ExtraIsBounded(e: map<string, Json>, i: nat)
    ensures AtMost(CheckExtra(e, i), 5, i)
  {
    if Get(e, "extra").Obj? {
      var x := Get(e, "extra").fields;
      assert AtMost(CheckAddress(Get(x, "receiverAuthorizer"), i, "extra.receiverAuthorizer", "receiver_authorizer"), 1, i);
      DelayIsBounded(x, i);
      assert AtMost(CheckText(x, i, "name"), 1, i) && AtMost(CheckText(x, i, "version"), 1, i) && AtMost(CheckMethod(x, i), 1, i);
      hide CheckAddress, CheckDelay, CheckText, CheckMethod;
    }
  }

  lemma DelayIsBounded(x: map<string, Json>, i: nat)
    ensures AtMost(CheckDelay(x, i), 1, i)
  {
    hide ParseWithdrawDelay;
  }

  lemma PayToIsBounded(e: map<string, Json>, i: nat)
    ensures AtMost(CheckPayTo(e, i), 2, i)
  {
    assert AtMost(CheckAddress(Get(e, "payTo"), i, "payTo", "pay_to"), 1, i);
    assert AtMost(CheckAddress(Get(e, "pay_to"), i, "pay_to", "pay_to"), 1, i);
    hide CheckAddress, Equal;
  }

  lemma EntryIsBounded(e: map<string, Json>, i: nat)
    ensures |EntryFindings(e, i)| <= 10
    ensures forall f :: f in EntryFindings(e, i) ==> f.acceptsIndex == i
  {
    ExtraIsBounded(e, i);
    PayToIsBounded(e, i);
    assert AtMost(CheckNetwork(e, i), 1, i) && AtMost(CheckAmount(e, i), 1, i);
    assert AtMost(CheckAddress(Get(e, "asset"), i, "asset", "asset"), 1, i);
    hide CheckNetwork, CheckAmount, CheckAddress, CheckPayTo, CheckExtra;
  }

  // ----- what a finding says -----

  ghost predicate Absent(v: Json) {
    v.Null? || (v.Str? && Strip(v.s) == "")
  }

  ghost predicate ZeroAddress(v: Json) {
    v.Str? && IsAddress(v.s) && forall i :: 2 <= i < 42 ==> v.s[i] == '0'
  }

  // One address field: what is missing, malformed or zero is said so, and nothing else.
  ghost predicate AddressReported(fs: seq<Finding>, v: Json, i: nat, field: string, prefix: string) {
    && (Finding(i, field, "missing_" + prefix) in fs <==> Absent(v))
    && (Finding(i, field, "invalid_" + prefix) in fs <==> !Absent(v) && !(v.Str? && IsAddress(v.s)))
    && (Finding(i, field, "zero_" + prefix) in fs <==> ZeroAddress(v))
  }

  lemma AddressCodes(v: Json, i: nat, field: string, prefix: string)
    ensures AddressReported(CheckAddress(v, i, field, prefix), v, i, field, prefix)
    ensures OnlyOn(CheckAddress(v, i, field, prefix), {field})
  {
    var m, n, z := "missing_" + prefix, "invalid_" + prefix, "zero_" + prefix;
    assert m[0] == 'm' && n[0] == 'i' && z[0] == 'z';
    if v.Str? && IsAddress(v.s) {
      AddressIsNotBlank(v.s);
    }
    hide IsAddress, Strip;
  }

  // The delay: left out, not a canonical number, or a number out of range.
  ghost predicate DelayReported(fs: seq<Finding>, x: map<string, Json>, i: nat) {
    var v := Get(x, "withdrawDelay");
    && (Finding(i, "extra.withdrawDelay", "missing_withdraw_delay") in fs <==> "withdrawDelay" !in x)
    && (Finding(i, "extra.withdrawDelay", "invalid_withdraw_delay") in fs
        <==> "withdrawDelay" in x && !exists d :: DenotesDelay(v, d))
    && (Finding(i, "extra.withdrawDelay", "withdraw_delay_out_of_range") in fs
        <==> exists d :: DenotesDelay(v, d) && !(900 <= d <= 2_592_000))
  }

  lemma DelayCodes(x: map<string, Json>, i: nat)
    ensures DelayReported(CheckDelay(x, i), x, i)
    ensures OnlyOn(CheckDelay(x, i), {"extra.withdrawDelay"})
  {
    var v := Get(x, "withdrawDelay");
    forall d ensures ParseWithdrawDelay(v) == Some(d) <==> DenotesDelay(v, d) {
      DelayIsCanonicalNumeral(v, d);
    }
    if ParseWithdrawDelay(v).Some? {
      assert DenotesDelay(v, ParseWithdrawDelay(v).value);
    }
    hide ParseWithdrawDelay, DenotesDelay;
  }

  // Each rule about `extra` has its own findings.
  ghost predicate ExtraReported(fs: seq<Finding>, x: map<string, Json>, i: nat) {
    && AddressReported(fs, Get(x, "receiverAuthorizer"), i, "extra.receiverAuthorizer", "receiver_authorizer")
    && DelayReported(fs, x, i)
    && (Finding(i, "extra.name", "missing_or_empty_name") in fs <==> !NonBlank(Get(x, "name")))
    && (Finding(i, "extra.version", "missing_or_empty_version") in fs <==> !NonBlank(Get(x, "version")))
    && (Finding(i, "extra.assetTransferMethod", "invalid_asset_transfer_method") in fs
        <==> "assetTransferMethod" in x && x["assetTransferMethod"] !in {Str("eip3009"), Str("permit2")})
  }

  ghost predicate OnlyOn(fs: seq<Finding>, fields: set<string>) {
    forall f :: f in fs ==> f.field in fields
  }

  // Both lists say the same about these fields.
  ghost predicate SameOn(fs: seq<Finding>, gs: seq<Finding>, fields: set<string>) {
    forall f: Finding :: f.field in fields ==> (f in fs <==> f in gs)
  }

  // Findings on different fields do not mix.
  lemma SplitByField(a: seq<Finding>, b: seq<Finding>, c: seq<Finding>, d: seq<Finding>, m: seq<Finding>,
                     fa: set<string>, fb: set<string>, fc: set<string>, fd: set<string>, fm: set<string>)
    requires OnlyOn(a, fa) && OnlyOn(b, fb) && OnlyOn(c, fc) && OnlyOn(d, fd) && OnlyOn(m, fm)
    requires fa !! fb !! fc !! fd !! fm
    ensures SameOn(a + b + c + d + m, a, fa) && SameOn(a + b + c + d + m, b, fb) && SameOn(a + b + c + d + m, c, fc)
    ensures SameOn(a + b + c + d + m, d, fd) && SameOn(a + b + c + d + m, m, fm)
  {
    forall f: Finding
      ensures f in a + b + c + d + m <==> f in a || f in b || f in c || f in d || f in m
    {
    }
  }

  lemma TextCodes(x: map<string, Json>, i: nat)
    ensures OnlyOn(CheckText(x, i, "name"), {"extra.name"}) && OnlyOn(CheckText(x, i, "version"), {"extra.version"})
    ensures Finding(i, "extra.name", "missing_or_empty_name") in CheckText(x, i, "name") <==> !NonBlank(Get(x, "name"))
    ensures Finding(i, "extra.version", "missing_or_empty_version") in CheckText(x, i, "version") <==> !NonBlank(Get(x, "version"))
  {
    assert "extra." + "name" == "extra.name" && "missing_or_empty_" + "name" == "missing_or_empty_name";
    assert "extra." + "version" == "extra.version" && "missing_or_empty_" + "version" == "missing_or_empty_version";
    hide Strip;
  }

  lemma ExtraSplits(e: map<string, Json>, i: nat)
    requires Get(e, "extra").Obj?
    ensures var x, all := Get(e, "extra").fields, CheckExtra(e, i);
      && SameOn(all, CheckAddress(Get(x, "receiverAuthorizer"), i, "extra.receiverAuthorizer", "receiver_authorizer"), {"extra.receiverAuthorizer"})
      && SameOn(all, CheckDelay(x, i), {"extra.withdrawDelay"})
      && SameOn(all, CheckText(x, i, "name"), {"extra.name"})
      && SameOn(all, CheckText(x, i, "version"), {"extra.version"})
      && SameOn(all, CheckMethod(x, i), {"extra.assetTransferMethod"})
  {
    var x := Get(e, "extra").fields;
    var a, b, c, d, m := CheckAddress(Get(x, "receiverAuthorizer"), i, "extra.receiverAuthorizer", "receiver_authorizer"),
                         CheckDelay(x, i), CheckText(x, i, "name"), CheckText(x, i, "version"), CheckMethod(x, i);
    assert CheckExtra(e, i) == a + b + c + d + m;
    assert OnlyOn(m, {"extra.assetTransferMethod"});
    hide CheckExtra, CheckAddress, CheckDelay, CheckText, CheckMethod, AddressReported, DelayReported, NonBlank, OnlyOn, SameOn;
    AddressCodes(Get(x, "receiverAuthorizer"), i, "extra.receiverAuthorizer", "receiver_authorizer");
    DelayCodes(x, i);
    TextCodes(x, i);
    ExtraFieldsAreDisjoint();
    SplitByField(a, b, c, d, m, {"extra.receiverAuthorizer"}, {"extra.withdrawDelay"}, {"extra.name"}, {"extra.version"},
                 {"extra.assetTransferMethod"});
  }

  lemma ExtraFieldsAreDisjoint()
    ensures {"extra.receiverAuthorizer"} !! {"extra.withdrawDelay"} !! {"extra.name"} !! {"extra.version"} !! {"extra.assetTransferMethod"}
  {
    assert |"extra.receiverAuthorizer"| == 24 && |"extra.withdrawDelay"| == 19 && |"extra.name"| == 10;
    assert |"extra.version"| == 13 && |"extra.assetTransferMethod"| == 25;
  }

  lemma AddressAlso(fs: seq<Finding>, gs: seq<Finding>, v: Json, i: nat, field: string, prefix: string)
    requires AddressReported(gs, v, i, field, prefix) && SameOn(fs, gs, {field})
    ensures AddressReported(fs, v, i, field, prefix)
  {
    hide Absent, ZeroAddress, IsAddress;
  }

  lemma DelayAlso(fs: seq<Finding>, gs: seq<Finding>, x: map<string, Json>, i: nat)
    requires DelayReported(gs, x, i) && SameOn(fs, gs, {"extra.withdrawDelay"})
    ensures DelayReported(fs, x, i)
  {
    hide DenotesDelay;
  }

  /** The same for the rules about `extra`. */
  lemma ExtraCodes(e: map<string, Json>, i: nat)
    requires Get(e, "extra").Obj?
    ensures ExtraReported(CheckExtra(e, i), Get(e, "extra").fields, i)
  {
    var x, all := Get(e, "extra").fields, CheckExtra(e, i);
    ExtraSplits(e, i);
    AddressCodes(Get(x, "receiverAuthorizer"), i, "extra.receiverAuthorizer", "receiver_authorizer");
    DelayCodes(x, i);
    TextCodes(x, i);
    hide CheckExtra, CheckAddress, CheckDelay, CheckText, AddressReported, DelayReported, NonBlank, OnlyOn;
    AddressAlso(all, CheckAddress(Get(x, "receiverAuthorizer"), i, "extra.receiverAuthorizer", "receiver_authorizer"),
                Get(x, "receiverAuthorizer"), i, "extra.receiverAuthorizer", "receiver_authorizer");
    DelayAlso(all, CheckDelay(x, i), x, i);
  }

  // Payment goes to payTo, or to pay_to when that one is missing.
  ghost predicate PayToReported(fs: seq<Finding>, e: map<string, Json>, i: nat) {
    var camel, snake := Get(e, "payTo"), Get(e, "pay_to");
    && AddressReported(fs, if !camel.Null? then camel else snake, i, if UsesAlias(e) then "pay_to" else "payTo", "pay_to")
    && (Finding(i, "payTo", "payto_alias_conflict") in fs <==> !camel.Null? && !snake.Null? && !Equal(camel, snake))
  }

  lemma PayToCodes(e: map<string, Json>, i: nat)
    ensures PayToReported(CheckPayTo(e, i), e, i)
    ensures OnlyOn(CheckPayTo(e, i), {"payTo", "pay_to"})
  {
    var camel, snake := Get(e, "payTo"), Get(e, "pay_to");
    AddressCodes(camel, i, "payTo", "pay_to");
    AddressCodes(snake, i, "pay_to", "pay_to");
    assert "missing_" + "pay_to" == "missing_pay_to";
    assert "payto_alias_conflict"[0] == 'p' && ("missing_" + "pay_to")[0] == 'm' && ("invalid_" + "pay_to")[0] == 'i' && ("zero_" + "pay_to")[0] == 'z';
    AliasConflictIsNotAnAddressCode(camel, i);
    hide CheckAddress, IsAddress, ZeroAddress, Equal, Strip;
  }

  lemma AliasConflictIsNotAnAddressCode(v: Json, i: nat)
    ensures Finding(i, "payTo", "payto_alias_conflict") !in CheckAddress(v, i, "payTo", "pay_to")
  {
    assert "payto_alias_conflict"[0] == 'p' && ("missing_" + "pay_to")[0] == 'm' && ("invalid_" + "pay_to")[0] == 'i' && ("zero_" + "pay_to")[0] == 'z';
  }

  ghost predicate EntryReported(fs: seq<Finding>, e: map<string, Json>, i: nat) {
    && (Finding(i, "network", "invalid_network") in fs <==> !NetworkRule(e))
    && (Finding(i, "amount", "invalid_amount") in fs <==> !AmountRule(e))
    && AddressReported(fs, Get(e, "asset"), i, "asset", "asset")
    && PayToReported(fs, e, i)
    && (Finding(i, "extra", "invalid_extra") in fs <==> !Get(e, "extra").Obj?)
    && (Get(e, "extra").Obj? ==> ExtraReported(fs, Get(e, "extra").fields, i))
  }

  const EXTRA_FIELDS := {"extra", "extra.receiverAuthorizer", "extra.withdrawDelay", "extra.name", "extra.version",
                         "extra.assetTransferMethod"}

  lemma ExtraStaysInside(e: map<string, Json>, i: nat)
    ensures OnlyOn(CheckExtra(e, i), EXTRA_FIELDS)
  {
    if Get(e, "extra").Obj? {
      var x := Get(e, "extra").fields;
      AddressCodes(Get(x, "receiverAuthorizer"), i, "extra.receiverAuthorizer", "receiver_authorizer");
      DelayCodes(x, i);
      TextCodes(x, i);
      hide CheckAddress, CheckDelay, CheckText, AddressReported, DelayReported, NonBlank;
    }
  }

  lemma FieldsAreDisjoint()
    ensures {"network"} !! {"amount"} !! {"asset"} !! {"payTo", "pay_to"} !! EXTRA_FIELDS
  {
    assert |"network"| == 7 && |"amount"| == 6 && |"asset"| == 5 && |"payTo"| == 5;
    assert "payTo"[0] == "pay_to"[0] == 'p' && "amount"[0] == "asset"[0] == 'a' && "network"[0] == 'n';
    assert forall f :: f in EXTRA_FIELDS ==> f[0] == 'e';
  }

  lemma EntrySplits(e: map<string, Json>, i: nat)
    ensures var all := EntryFindings(e, i);
      && SameOn(all, CheckNetwork(e, i), {"network"}) && SameOn(all, CheckAmount(e, i), {"amount"})
      && SameOn(all, CheckAddress(Get(e, "asset"), i, "asset", "asset"), {"asset"})
      && SameOn(all, CheckPayTo(e, i), {"payTo", "pay_to"}) && SameOn(all, CheckExtra(e, i), EXTRA_FIELDS)
  {
    assert OnlyOn(CheckNetwork(e, i), {"network"}) && OnlyOn(CheckAmount(e, i), {"amount"});
    AddressCodes(Get(e, "asset"), i, "asset", "asset");
    PayToCodes(e, i);
    ExtraStaysInside(e, i);
    FieldsAreDisjoint();
    hide CheckNetwork, CheckAmount, CheckAddress, CheckPayTo, CheckExtra, AddressReported, PayToReported, OnlyOn, SameOn;
    SplitByField(CheckNetwork(e, i), CheckAmount(e, i), CheckAddress(Get(e, "asset"), i, "asset", "asset"),
                 CheckPayTo(e, i), CheckExtra(e, i), {"network"}, {"amount"}, {"asset"}, {"payTo", "pay_to"}, EXTRA_FIELDS);
  }

  lemma PayToAlso(fs: seq<Finding>, gs: seq<Finding>, e: map<string, Json>, i: nat)
    requires PayToReported(gs, e, i) && SameOn(fs, gs, {"payTo", "pay_to"})
    ensures PayToReported(fs, e, i)
  {
    hide Absent, ZeroAddress, IsAddress, Equal;
  }

  lemma ExtraAlso(fs: seq<Finding>, gs: seq<Finding>, x: map<string, Json>, i: nat)
    requires ExtraReported(gs, x, i) && SameOn(fs, gs, EXTRA_FIELDS)
    ensures ExtraReported(fs, x, i)
  {
    hide AddressReported, DelayReported, NonBlank;
    AddressAlso(fs, gs, Get(x, "receiverAuthorizer"), i, "extra.receiverAuthorizer", "receiver_authorizer");
    DelayAlso(fs, gs, x, i);
  }

  /** Each rule has its own findings, and they appear exactly when that rule is broken. */
  lemma EntryCodes(e: map<string, Json>, i: nat)
    ensures EntryReported(EntryFindings(e, i), e, i)
  {
    var all := EntryFindings(e, i);
    EntrySplits(e, i);
    NetworkDecides(e, i);
    AmountDecides(e, i);
    assert Finding(i, "network", "invalid_network") in CheckNetwork(e, i) <==> CheckNetwork(e, i) != [];
    assert Finding(i, "amount", "invalid_amount") in CheckAmount(e, i) <==> CheckAmount(e, i) != [];
    hide CheckNetwork, CheckAmount, NetworkRule, AmountRule, EntryFindings;
    AddressCodes(Get(e, "asset"), i, "asset", "asset");
    AddressAlso(all, CheckAddress(Get(e, "asset"), i, "asset", "asset"), Get(e, "asset"), i, "asset", "asset");
    PayToCodes(e, i);
    PayToAlso(all, CheckPayTo(e, i), e, i);
    InvalidExtra(e, i);
    if Get(e, "extra").Obj? {
      ExtraCodes(e, i);
      ExtraAlso(all, CheckExtra(e, i), Get(e, "extra").fields, i);
    }
    hide CheckAddress, CheckPayTo, CheckExtra, AddressReported, PayToReported, ExtraReported;
    assert "extra" in EXTRA_FIELDS;
  }

  lemma InvalidExtra(e: map<string, Json>, i: nat)
    ensures Finding(i, "extra", "invalid_extra") in CheckExtra(e, i) <==> !Get(e, "extra").Obj?
  {
    if Get(e, "extra").Obj? {
      var x := Get(e, "extra").fields;
      AddressCodes(Get(x, "receiverAuthorizer"), i, "extra.receiverAuthorizer", "receiver_authorizer");
      DelayCodes(x, i);
      TextCodes(x, i);
      assert |"extra"| == 5 && |"extra.receiverAuthorizer"| == 24 && |"extra.withdrawDelay"| == 19;
      assert |"extra.name"| == 10 && |"extra.version"| == 13 && |"extra.assetTransferMethod"| == 25;
      hide CheckAddress, CheckDelay, CheckText, AddressReported, DelayReported, NonBlank;
    }
  }

  // ----- the whole list -----

  predicate IsBatch(entry: Json) {
    entry.Obj? && Get(entry.fields, "scheme").Str? && Strip(Get(entry.fields, "scheme").s) == "batch-settlement"
  }

  /** What one place of the list contributes. */
  function Here(entry: Json, i: nat): seq<Finding> {
    if IsBatch(entry) then EntryFindings(entry.fields, i) else []
  }

  function FindingsFrom(accepts: seq<Json>, base: nat): seq<Finding> {
    if accepts == [] then []
    else FindingsFrom(accepts[..|accepts| - 1], base) + Here(accepts[|accepts| - 1], base + |accepts| - 1)
  }

  function BatchCount(accepts: seq<Json>): nat {
    if accepts == [] then 0
    else BatchCount(accepts[..|accepts| - 1]) + (if IsBatch(accepts[|accepts| - 1]) then 1 else 0)
  }

  /** The place holds a batch-settlement entry that breaks a rule. */
  ghost predicate Violates(entry: Json) {
    IsBatch(entry) && !Conforms(entry.fields)
  }

  ghost predicate AllConform(accepts: seq<Json>) {
    forall k :: 0 <= k < |accepts| ==> !Violates(accepts[k])
  }

  lemma HereDecides(entry: Json, i: nat)
    ensures Here(entry, i) == [] <==> !Violates(entry)
    ensures forall f :: f in Here(entry, i) ==> f.acceptsIndex == i
    ensures |Here(entry, i)| <= if IsBatch(entry) then 10 else 0
  {
    if IsBatch(entry) {
      EntryDecides(entry.fields, i);
      EntryIsBounded(entry.fields, i);
    }
    hide EntryFindings, Conforms;
  }

  lemma FindingsStep(accepts: seq<Json>, base: nat, n: nat)
    requires |accepts| == n + 1
    ensures FindingsFrom(accepts, base) == FindingsFrom(accepts[..n], base) + Here(accepts[n], base + n)
  {
    hide Here;
  }

  lemma {:induction false} FindingsInRange(accepts: seq<Json>, base: nat)
    ensures forall f :: f in FindingsFrom(accepts, base) ==> base <= f.acceptsIndex < base + |accepts|
  {
    hide Here, IsBatch, Violates;
    if accepts != [] {
      var n := |accepts| - 1;
      FindingsInRange(accepts[..n], base);
      HereDecides(accepts[n], base + n);
      FindingsStep(accepts, base, n);
    }
  }

  /** Findings point at exactly the batch entries that do not conform. */
  lemma {:induction false} FindingsPointAtViolations(accepts: seq<Json>, base: nat, k: nat)
    requires k < |accepts|
    ensures (exists f :: f in FindingsFrom(accepts, base) && f.acceptsIndex == base + k) <==> Violates(accepts[k])
  {
    hide Here, Violates, IsBatch, FindingsFrom;
    var n := |accepts| - 1;
    var before, here := FindingsFrom(accepts[..n], base), Here(accepts[n], base + n);
    HereDecides(accepts[n], base + n);
    FindingsInRange(accepts[..n], base);
    FindingsStep(accepts, base, n);
    if k < n {
      FindingsPointAtViolations(accepts[..n], base, k);
    } else if here != [] {
      assert here[0] in before + here;
    }
  }

  lemma {:induction false} NoFindingsIffAllConform(accepts: seq<Json>, base: nat)
    ensures FindingsFrom(accepts, base) == [] <==> AllConform(accepts)
  {
    hide Here, IsBatch, Violates;
    if accepts != [] {
      var n := |accepts| - 1;
      NoFindingsIffAllConform(accepts[..n], base);
      HereDecides(accepts[n], base + n);
      FindingsStep(accepts, base, n);
      assert AllConform(accepts) <==> AllConform(accepts[..n]) && !Violates(accepts[n]);
      assert |FindingsFrom(accepts, base)| == |FindingsFrom(accepts[..n], base)| + |Here(accepts[n], base + n)|;
    }
  }

  lemma {:induction false} BatchCountIff(accepts: seq<Json>)
    ensures BatchCount(accepts) > 0 <==> exists k :: 0 <= k < |accepts| && IsBatch(accepts[k])
  {
    if accepts != [] {
      var n := |accepts| - 1;
      BatchCountIff(accepts[..n]);
      hide IsBatch;
      if BatchCount(accepts[..n]) > 0 {
        var k :| 0 <= k < n && IsBatch(accepts[..n][k]);
        assert IsBatch(accepts[k]);
      }
    }
  }

  lemma {:induction false} BatchCountIsSet(accepts: seq<Json>)
    ensures BatchCount(accepts) == |set k: nat | k < |accepts| && IsBatch(accepts[k])|
  {
    hide IsBatch;
    var all := set k: nat | k < |accepts| && IsBatch(accepts[k]);
    if accepts == [] {
      assert all == {};
    } else {
      BatchCountIsSet(accepts[..|accepts| - 1]);
      BatchSetGrows(accepts);
    }
  }

  lemma BatchSetGrows(accepts: seq<Json>)
    requires accepts != []
    ensures var n := |accepts| - 1;
      |set k: nat | k < |accepts| && IsBatch(accepts[k])|
      == |set k: nat | k < n && IsBatch(accepts[..n][k])| + (if IsBatch(accepts[n]) then 1 else 0)
  {
    hide IsBatch;
    var n := |accepts| - 1;
    var all, before := set k: nat | k < |accepts| && IsBatch(accepts[k]), set k: nat | k < n && IsBatch(accepts[..n][k]);
    assert n !in before;
    assert all == before + (if IsBatch(accepts[n]) then {n} else {});
  }

  /** A batch-settlement entry is an object with that scheme, give or take blanks around it. */
  lemma IsBatchIff(entry: Json)
    ensures IsBatch(entry) <==>
              entry.Obj? && exists l, r :: Blank(l) && Blank(r) && Get(entry.fields, "scheme") == Str(l + "batch-settlement" + r)
  {
    hide Strip, Blank;
    if entry.Obj? && Get(entry.fields, "scheme").Str? {
      var s := Get(entry.fields, "scheme").s;
      assert !IsSpace("batch-settlement"[0]) && !IsSpace("batch-settlement"[15]);
      StripIff(s, "batch-settlement");
      if IsBatch(entry) {
        var l, r :| Blank(l) && Blank(r) && s == l + "batch-settlement" + r;
        assert Get(entry.fields, "scheme") == Str(l + "batch-settlement" + r);
      }
    }
  }

  // ----- the order of findings -----

  /** Where the check of a field stands among the checks of an entry. */
  function Rank(f: Finding): nat {
    if f.field == "network" then 0
    else if f.field == "amount" then 1
    else if f.field == "asset" then 2
    else if f.code == "payto_alias_conflict" then 3
    else if f.field == "payTo" || f.field == "pay_to" then 4
    else if f.field == "extra" then 5
    else if f.field == "extra.receiverAuthorizer" then 6
    else if f.field == "extra.withdrawDelay" then 7
    else if f.field == "extra.name" then 8
    else if f.field == "extra.version" then 9
    else 10
  }

  ghost predicate Rising(fs: seq<Finding>, lo: nat, hi: nat) {
    && (forall a :: 0 <= a < |fs| ==> lo <= Rank(fs[a]) <= hi)
    && forall a, b :: 0 <= a < b < |fs| ==> Rank(fs[a]) < Rank(fs[b])
  }

  lemma RisingConcat(a: seq<Finding>, b: seq<Finding>, lo: nat, mid: nat, mid': nat, hi: nat)
    requires Rising(a, lo, mid) && Rising(b, mid', hi) && lo <= mid < mid' <= hi
    ensures Rising(a + b, lo, hi)
  {
    hide Rank;
  }

  // Findings on this field have this rank, except for the conflict of the two spellings of payTo.
  ghost predicate Stands(field: string, rank: nat) {
    forall f: Finding :: f.field == field && f.code != "payto_alias_conflict" ==> Rank(f) == rank
  }

  lemma RanksAre()
    ensures Stands("network", 0) && Stands("amount", 1) && Stands("asset", 2)
    ensures Stands("payTo", 4) && Stands("pay_to", 4) && Stands("extra", 5)
    ensures Stands("extra.receiverAuthorizer", 6) && Stands("extra.withdrawDelay", 7) && Stands("extra.name", 8)
    ensures Stands("extra.version", 9) && Stands("extra.assetTransferMethod", 10)
  {
    assert |"network"| == 7 && |"amount"| == 6 && |"asset"| == 5 && |"payTo"| == 5 && |"pay_to"| == 6 && |"extra"| == 5;
    assert "payTo"[0] == "pay_to"[0] == 'p' && "amount"[0] == "asset"[0] == 'a' && "extra"[0] == 'e';
    assert |"extra.receiverAuthorizer"| == 24 && |"extra.withdrawDelay"| == 19 && |"extra.name"| == 10;
    assert |"extra.version"| == 13 && |"extra.assetTransferMethod"| == 25;
  }

  // A check of one field that finds at most one thing.
  lemma OneRises(fs: seq<Finding>, field: string, rank: nat)
    requires Stands(field, rank) && |fs| <= 1
    requires fs != [] ==> fs[0].field == field && fs[0].code != "" && fs[0].code[0] != 'p'
    ensures Rising(fs, rank, rank)
  {
    assert "payto_alias_conflict"[0] == 'p';
    hide Rank;
  }

  lemma AddressRises(v: Json, i: nat, field: string, prefix: string, rank: nat)
    requires Stands(field, rank)
    ensures Rising(CheckAddress(v, i, field, prefix), rank, rank)
  {
    hide Stands, Rising, IsAddress, Strip;
    assert ("missing_" + prefix)[0] == 'm' && ("invalid_" + prefix)[0] == 'i' && ("zero_" + prefix)[0] == 'z';
    OneRises(CheckAddress(v, i, field, prefix), field, rank);
  }

  lemma FirstTwoRise(e: map<string, Json>, i: nat)
    requires Stands("network", 0) && Stands("amount", 1)
    ensures Rising(CheckNetwork(e, i), 0, 0) && Rising(CheckAmount(e, i), 1, 1)
  {
    hide Stands, Rising, IsNetwork, PositiveDecimal, Strip;
    OneRises(CheckNetwork(e, i), "network", 0);
    OneRises(CheckAmount(e, i), "amount", 1);
  }

  lemma PayToRises(e: map<string, Json>, i: nat)
    requires Stands("payTo", 4) && Stands("pay_to", 4)
    ensures Rising(CheckPayTo(e, i), 3, 4)
  {
    hide Stands, Rising, CheckAddress, Equal;
    var camel, snake := Get(e, "payTo"), Get(e, "pay_to");
    if !camel.Null? {
      AddressRises(camel, i, "payTo", "pay_to", 4);
      ConflictRises(i);
      RisingConcat([Finding(i, "payTo", "payto_alias_conflict")], CheckAddress(camel, i, "payTo", "pay_to"), 3, 3, 4, 4);
      RisingConcat([], CheckAddress(camel, i, "payTo", "pay_to"), 3, 3, 4, 4);
    } else if !snake.Null? {
      AddressRises(snake, i, "pay_to", "pay_to", 4);
      RisingWidens(CheckAddress(snake, i, "pay_to", "pay_to"), 4, 4, 3, 4);
    } else {
      OneRises(CheckPayTo(e, i), "payTo", 4);
      RisingWidens(CheckPayTo(e, i), 4, 4, 3, 4);
    }
  }

  lemma ConflictRises(i: nat)
    ensures Rising([Finding(i, "payTo", "payto_alias_conflict")], 3, 3) && Rising([], 3, 3)
  {
    assert |"payTo"| == 5 && |"network"| == 7 && |"amount"| == 6 && |"asset"| == 5 && "asset"[0] == 'a' && "payTo"[0] == 'p';
  }

  lemma RisingWidens(fs: seq<Finding>, lo: nat, hi: nat, lower: nat, higher: nat)
    requires Rising(fs, lo, hi) && lower <= lo && hi <= higher
    ensures Rising(fs, lower, higher)
  {
    hide Rank;
  }

  lemma DelayRises(x: map<string, Json>, i: nat)
    requires Stands("extra.withdrawDelay", 7)
    ensures Rising(CheckDelay(x, i), 7, 7)
  {
    hide Stands, Rising, ParseWithdrawDelay;
    OneRises(CheckDelay(x, i), "extra.withdrawDelay", 7);
  }

  lemma TextsRise(x: map<string, Json>, i: nat)
    requires Stands("extra.name", 8) && Stands("extra.version", 9) && Stands("extra.assetTransferMethod", 10)
    ensures Rising(CheckText(x, i, "name"), 8, 8) && Rising(CheckText(x, i, "version"), 9, 9) && Rising(CheckMethod(x, i), 10, 10)
  {
    hide Stands, Rising, Strip;
    assert "extra." + "name" == "extra.name" && "extra." + "version" == "extra.version";
    OneRises(CheckText(x, i, "name"), "extra.name", 8);
    OneRises(CheckText(x, i, "version"), "extra.version", 9);
    OneRises(CheckMethod(x, i), "extra.assetTransferMethod", 10);
  }

  lemma ExtraRises(e: map<string, Json>, i: nat)
    ensures Rising(CheckExtra(e, i), 5, 10)
  {
    hide Stands, Rising, CheckAddress, CheckDelay, CheckText, CheckMethod;
    RanksAre();
    if Get(e, "extra").Obj? {
      var x := Get(e, "extra").fields;
      var a := CheckAddress(Get(x, "receiverAuthorizer"), i, "extra.receiverAuthorizer", "receiver_authorizer");
      var d, n, v, m := CheckDelay(x, i), CheckText(x, i, "name"), CheckText(x, i, "version"), CheckMethod(x, i);
      AddressRises(Get(x, "receiverAuthorizer"), i, "extra.receiverAuthorizer", "receiver_authorizer", 6);
      DelayRises(x, i);
      TextsRise(x, i);
      RisingConcat(a, d, 6, 6, 7, 7);
      RisingConcat(a + d, n, 6, 7, 8, 8);
      RisingConcat(a + d + n, v, 6, 8, 9, 9);
      RisingConcat(a + d + n + v, m, 6, 9, 10, 10);
      RisingWidens(a + d + n + v + m, 6, 10, 5, 10);
    } else {
      OneRises(CheckExtra(e, i), "extra", 5);
      RisingWidens(CheckExtra(e, i), 5, 5, 5, 10);
    }
  }

  /** The findings of an entry come in the order of its checks, and each at most once: network,
      amount, asset, payTo (first the conflict of the two spellings), then what `extra` lacks. */
  lemma FindingsAreInOrder(e: map<string, Json>, i: nat)
    ensures Rising(EntryFindings(e, i), 0, 10)
  {
    hide Stands, Rising, CheckNetwork, CheckAmount, CheckAddress, CheckPayTo, CheckExtra;
    var n, a, s, p, x := CheckNetwork(e, i), CheckAmount(e, i), CheckAddress(Get(e, "asset"), i, "asset", "asset"),
                         CheckPayTo(e, i), CheckExtra(e, i);
    RanksAre();
    FirstTwoRise(e, i);
    AddressRises(Get(e, "asset"), i, "asset", "asset", 2);
    PayToRises(e, i);
    ExtraRises(e, i);
    RisingConcat(n, a, 0, 0, 1, 1);
    RisingConcat(n + a, s, 0, 1, 2, 2);
    RisingConcat(n + a + s, p, 0, 2, 3, 4);
    RisingConcat(n + a + s + p, x, 0, 4, 5, 10);
  }

  function Shift(fs: seq<Finding>, offset: nat): (r: seq<Finding>)
    ensures |r| == |fs|
  {
    seq(|fs|, i requires 0 <= i < |fs| => fs[i].(acceptsIndex := fs[i].acceptsIndex + offset))
  }

  lemma ShiftConcat(a: seq<Finding>, b: seq<Finding>, offset: nat)
    ensures Shift(a + b, offset) == Shift(a, offset) + Shift(b, offset)
  {
  }

  lemma DelayShift(x: map<string, Json>, i: nat, offset: nat)
    ensures CheckDelay(x, i + offset) == Shift(CheckDelay(x, i), offset)
  {
    hide ParseWithdrawDelay;
  }

  lemma AddressShift(v: Json, i: nat, field: string, prefix: string, offset: nat)
    ensures CheckAddress(v, i + offset, field, prefix) == Shift(CheckAddress(v, i, field, prefix), offset)
  {
    hide IsAddress, Strip;
  }

  lemma TextShift(x: map<string, Json>, i: nat, name: string, offset: nat)
    ensures CheckText(x, i + offset, name) == Shift(CheckText(x, i, name), offset)
  {
    hide Strip;
  }

  lemma MethodShift(x: map<string, Json>, i: nat, offset: nat)
    ensures CheckMethod(x, i + offset) == Shift(CheckMethod(x, i), offset)
  {
  }

  lemma ExtraShift(e: map<string, Json>, i: nat, offset: nat)
    ensures CheckExtra(e, i + offset) == Shift(CheckExtra(e, i), offset)
  {
    if Get(e, "extra").Obj? {
      hide CheckAddress, CheckDelay, CheckText, CheckMethod, Shift;
      var x := Get(e, "extra").fields;
      var a, d := CheckAddress(Get(x, "receiverAuthorizer"), i, "extra.receiverAuthorizer", "receiver_authorizer"), CheckDelay(x, i);
      var n, v, m := CheckText(x, i, "name"), CheckText(x, i, "version"), CheckMethod(x, i);
      AddressShift(Get(x, "receiverAuthorizer"), i, "extra.receiverAuthorizer", "receiver_authorizer", offset);
      DelayShift(x, i, offset);
      TextShift(x, i, "name", offset);
      TextShift(x, i, "version", offset);
      MethodShift(x, i, offset);
      ShiftConcat(a, d, offset);
      ShiftConcat(a + d, n, offset);
      ShiftConcat(a + d + n, v, offset);
      ShiftConcat(a + d + n + v, m, offset);
    }
  }

  lemma PayToShift(e: map<string, Json>, i: nat, offset: nat)
    ensures CheckPayTo(e, i + offset) == Shift(CheckPayTo(e, i), offset)
  {
    hide CheckAddress, Equal;
    var camel, snake := Get(e, "payTo"), Get(e, "pay_to");
    AddressShift(camel, i, "payTo", "pay_to", offset);
    AddressShift(snake, i, "pay_to", "pay_to", offset);
    ShiftConcat([Finding(i, "payTo", "payto_alias_conflict")], CheckAddress(camel, i, "payTo", "pay_to"), offset);
    ShiftConcat([], CheckAddress(camel, i, "payTo", "pay_to"), offset);
  }

  lemma NetworkShift(e: map<string, Json>, i: nat, offset: nat)
    ensures CheckNetwork(e, i + offset) == Shift(CheckNetwork(e, i), offset)
    ensures CheckAmount(e, i + offset) == Shift(CheckAmount(e, i), offset)
  {
    hide Strip, IsNetwork, PositiveDecimal;
  }

  /** The index is only a label: moving an entry moves its findings. */
  lemma EntryShift(e: map<string, Json>, i: nat, offset: nat)
    ensures EntryFindings(e, i + offset) == Shift(EntryFindings(e, i), offset)
  {
    hide CheckNetwork, CheckAmount, CheckAddress, CheckPayTo, CheckExtra, Shift;
    var n, a, s, p, x := CheckNetwork(e, i), CheckAmount(e, i), CheckAddress(Get(e, "asset"), i, "asset", "asset"),
                         CheckPayTo(e, i), CheckExtra(e, i);
    NetworkShift(e, i, offset);
    AddressShift(Get(e, "asset"), i, "asset", "asset", offset);
    PayToShift(e, i, offset);
    ExtraShift(e, i, offset);
    ShiftConcat(n, a, offset);
    ShiftConcat(n + a, s, offset);
    ShiftConcat(n + a + s, p, offset);
    ShiftConcat(n + a + s + p, x, offset);
  }

  lemma HereShift(entry: Json, i: nat, offset: nat)
    ensures Here(entry, i + offset) == Shift(Here(entry, i), offset)
  {
    if IsBatch(entry) {
      EntryShift(entry.fields, i, offset);
    }
    hide EntryFindings;
  }

  /** Findings of two lists one after the other: those of the first, then those of the second
      with their indices moved along. */
  lemma {:induction false} FindingsConcat(a: seq<Json>, b: seq<Json>)
    ensures FindingsFrom(a + b, 0) == FindingsFrom(a, 0) + Shift(FindingsFrom(b, 0), |a|)
    ensures BatchCount(a + b) == BatchCount(a) + BatchCount(b)
  {
    hide Here, IsBatch;
    if b == [] {
      assert a + b == a;
    } else {
      var n := |b| - 1;
      FindingsConcat(a, b[..n]);
      assert (a + b)[..|a| + n] == a + b[..n] && (a + b)[|a| + n] == b[n];
      HereShift(b[n], n, |a|);
      ShiftConcat(FindingsFrom(b[..n], 0), Here(b[n], n), |a|);
      hide Shift;
      assert FindingsFrom(a + b, 0) == FindingsFrom(a + b[..n], 0) + Here(b[n], n + |a|);
    }
  }

  lemma {:induction false} AtMostTenEach(accepts: seq<Json>, base: nat)
    ensures |FindingsFrom(accepts, base)| <= 10 * BatchCount(accepts)
  {
    hide Here, IsBatch, Violates;
    if accepts != [] {
      var n := |accepts| - 1;
      AtMostTenEach(accepts[..n], base);
      HereDecides(accepts[n], base + n);
      FindingsStep(accepts, base, n);
    }
  }

  // ----- the evaluator -----

  datatype Status = PASS | FAIL | ERROR

  datatype Report = Report(
    status: Status,
    applicable: Option<bool>,
    batchEntries: nat,
    findings: seq<Finding>,
    findingsTotal: nat,
    aliasesUsed: seq<string>)

  /** The list to check, or None when the payload or its accepts field has the wrong shape. */
  function Accepts(payload: Json): Option<seq<Json>> {
    if !payload.Obj? then None
    else
      var accepts := Get(payload.fields, "accepts");
      if accepts.Null? then Some([]) else if accepts.Arr? then Some(accepts.items) else None
  }

  /** The list is that of `accepts`, or empty when the field is missing or null; any other payload
      or field has no list. */
  lemma AcceptsMeans(payload: Json, items: seq<Json>)
    ensures Accepts(payload) == Some(items) <==>
              && payload.Obj?
              && if "accepts" in payload.fields && payload.fields["accepts"] != Null then payload.fields["accepts"] == Arr(items)
                 else items == []
  {
  }

  /** The error of the first batch entry that has one. */
  function FirstError(accepts: seq<Json>): Option<Raised> {
    if accepts == [] then None
    else
      var before, last := FirstError(accepts[..|accepts| - 1]), accepts[|accepts| - 1];
      if before.Some? then before else if IsBatch(last) then EntryError(last.fields) else None
  }

  predicate Fails(entry: Json) {
    IsBatch(entry) && EntryError(entry.fields).Some?
  }

  lemma {:induction false} FirstErrorIff(accepts: seq<Json>)
    ensures FirstError(accepts).Some? <==> exists k :: 0 <= k < |accepts| && Fails(accepts[k])
  {
    if accepts != [] {
      var n := |accepts| - 1;
      FirstErrorIff(accepts[..n]);
      assert FirstError(accepts).Some? <==> FirstError(accepts[..n]).Some? || Fails(accepts[n]);
      hide FirstError, Fails;
      if FirstError(accepts[..n]).Some? {
        var k :| 0 <= k < n && Fails(accepts[..n][k]);
        assert Fails(accepts[k]);
      }
      forall k | 0 <= k < n && Fails(accepts[k]) ensures Fails(accepts[..n][k]) {}
    }
  }

  /** Once an entry has failed, later entries do not matter. */
  lemma {:induction false} FirstErrorStays(accepts: seq<Json>, n: nat)
    requires n <= |accepts| && FirstError(accepts[..n]).Some?
    ensures FirstError(accepts) == FirstError(accepts[..n])
  {
    hide IsBatch, EntryError;
    if n == |accepts| {
      assert accepts[..n] == accepts;
    } else {
      assert accepts[..|accepts| - 1][..n] == accepts[..n];
      FirstErrorStays(accepts[..|accepts| - 1], n);
    }
  }

  method ValidateEntry(e: map<string, Json>, i: nat, aliasesUsed: seq<string>)
    returns (r: Result<seq<Finding>, Raised>, aliases: seq<string>)
    ensures r == match EntryError(e)
                 case Some(error) => Failure(error)
                 case None => Success(EntryFindings(e, i))
    ensures aliases == if UsesAlias(e) && "pay_to" !in aliasesUsed then aliasesUsed + ["pay_to"] else aliasesUsed
  {
    aliases := aliasesUsed;
    var findings := CheckNetwork(e, i);
    findings := findings + CheckAmount(e, i);
    findings := findings + CheckAddress(Get(e, "asset"), i, "asset", "asset");
    findings := findings + CheckPayTo(e, i);
    if UsesAlias(e) && "pay_to" !in aliases {
      aliases := aliases + ["pay_to"];
    }
    if LongDelay(e) {
      return Failure(ValueError), aliases;
    }
    if Unhashable(e) {
      return Failure(TypeError), aliases;
    }
    findings := findings + CheckExtra(e, i);
    return Success(findings), aliases;
  }

  // What the loop has collected from the first entries.
  ghost predicate Collected(accepts: seq<Json>, entries: nat, findings: seq<Finding>, aliases: seq<string>) {
    && entries == BatchCount(accepts)
    && findings == FindingsFrom(accepts, 0)
    && FirstError(accepts) == None
    && aliases == if SomeAlias(accepts) then ["pay_to"] else []
  }

  lemma CollectNothing()
    ensures Collected([], 0, [], [])
  {
  }

  /** What has been collected from the whole list decides the answer. */
  lemma CollectedDecides(accepts: seq<Json>, entries: nat, findings: seq<Finding>, aliases: seq<string>)
    requires Collected(accepts, entries, findings, aliases)
    ensures findings == [] <==> AllConform(accepts)
    ensures entries > 0 <==> HasBatch(accepts)
    ensures |findings| <= 10 * entries
    ensures entries == BatchCount(accepts) && findings == FindingsFrom(accepts, 0) && FirstError(accepts) == None
    ensures aliases == if SomeAlias(accepts) then ["pay_to"] else []
  {
    hide IsBatch, AllConform, EntryError, UsesAlias;
    NoFindingsIffAllConform(accepts, 0);
    BatchCountIff(accepts);
    AtMostTenEach(accepts, 0);
  }

  lemma OneMore(done: seq<Json>, entry: Json)
    ensures SomeAlias(done + [entry]) <==> SomeAlias(done) || (IsBatch(entry) && UsesAlias(entry.fields))
  {
    var all, n := done + [entry], |done|;
    forall k | 0 <= k < n ensures all[k] == done[k] {}
    assert all[n] == entry;
    hide IsBatch, UsesAlias;
    if SomeAlias(done) {
      var k :| 0 <= k < n && IsBatch(done[k]) && UsesAlias(done[k].fields);
      assert IsBatch(all[k]) && UsesAlias(all[k].fields);
    }
    if IsBatch(entry) {
      assert IsBatch(all[n]);
    }
  }

  lemma ListStep(done: seq<Json>, entry: Json)
    ensures FindingsFrom(done + [entry], 0) == FindingsFrom(done, 0) + Here(entry, |done|)
    ensures BatchCount(done + [entry]) == BatchCount(done) + (if IsBatch(entry) then 1 else 0)
    ensures FirstError(done).None? ==>
              FirstError(done + [entry]) == if IsBatch(entry) then EntryError(entry.fields) else None
  {
    hide Here, IsBatch, EntryError;
    assert (done + [entry])[..|done|] == done;
  }

  lemma CollectOther(done: seq<Json>, entry: Json, entries: nat, findings: seq<Finding>, aliases: seq<string>)
    requires Collected(done, entries, findings, aliases) && !IsBatch(entry)
    ensures Collected(done + [entry], entries, findings, aliases)
  {
    OneMore(done, entry);
    ListStep(done, entry);
    assert Here(entry, |done|) == [] && findings + [] == findings;
    hide Here, FindingsFrom, BatchCount, IsBatch, SomeAlias, FirstError;
  }

  // Recording the alias once.
  lemma AliasOnce(seen: bool, now: bool, aliases: seq<string>)
    requires aliases == if seen then ["pay_to"] else []
    ensures (if now && "pay_to" !in aliases then aliases + ["pay_to"] else aliases) == if seen || now then ["pay_to"] else []
  {
  }

  lemma CollectBatch(done: seq<Json>, entry: Json, entries: nat, findings: seq<Finding>, aliases: seq<string>)
    requires Collected(done, entries, findings, aliases) && IsBatch(entry) && EntryError(entry.fields).None?
    ensures Collected(done + [entry], entries + 1, findings + EntryFindings(entry.fields, |done|),
                      if UsesAlias(entry.fields) && "pay_to" !in aliases then aliases + ["pay_to"] else aliases)
  {
    assert Here(entry, |done|) == EntryFindings(entry.fields, |done|);
    hide Here, EntryFindings, FindingsFrom, BatchCount, IsBatch, SomeAlias, FirstError, UsesAlias, EntryError;
    OneMore(done, entry);
    ListStep(done, entry);
    AliasOnce(SomeAlias(done), UsesAlias(entry.fields), aliases);
  }

  ghost predicate HasBatch(accepts: seq<Json>) {
    exists k :: 0 <= k < |accepts| && IsBatch(accepts[k])
  }

  ghost predicate SomeAlias(accepts: seq<Json>) {
    exists k :: 0 <= k < |accepts| && IsBatch(accepts[k]) && UsesAlias(accepts[k].fields)
  }

  /** The right report on a list: an applicable PASS exactly when there are batch entries and
      all conform, FAIL exactly when one does not, and the first 20 of all findings. */
  ghost predicate Judges(r: Report, accepts: seq<Json>) {
    && (r.status == PASS && r.applicable == Some(true) <==> HasBatch(accepts) && AllConform(accepts))
    && (r.status == PASS && r.applicable == Some(false) <==> !HasBatch(accepts))
    && (r.status == FAIL <==> !AllConform(accepts))
    && (r.status == FAIL ==> r.applicable == Some(true))
    && r.status != ERROR
    && r.batchEntries == BatchCount(accepts)
    && r.findingsTotal == |FindingsFrom(accepts, 0)| <= 10 * r.batchEntries
    && r.findings <= FindingsFrom(accepts, 0)
    && |r.findings| == (if r.findingsTotal <= 20 then r.findingsTotal else 20)
    && r.aliasesUsed == if SomeAlias(accepts) then ["pay_to"] else []
  }

  /** The loop over accepts[]. */
  method Collect(accepts: seq<Json>) returns (r: Result<(nat, seq<Finding>, seq<string>), Raised>)
    ensures r.Failure? <==> FirstError(accepts).Some?
    ensures r.Failure? ==> FirstError(accepts) == Some(r.error)
    ensures r.Success? ==> Collected(accepts, r.value.0, r.value.1, r.value.2)
  {
    var entries, allFindings, aliases := 0, [], [];
    hide IsBatch, EntryError, UsesAlias, EntryFindings, FirstError;
    CollectNothing();
    assert accepts[..0] == [];
    var idx := 0;
    while idx < |accepts|
      invariant 0 <= idx <= |accepts|
      invariant Collected(accepts[..idx], entries, allFindings, aliases)
    {
      var entry := accepts[idx];
      assert accepts[..idx + 1] == accepts[..idx] + [entry];
      if IsBatch(entry) {
        BatchIsObject(entry);
        var found, more := ValidateEntry(entry.fields, idx, aliases);
        if found.Failure? {
          ListStep(accepts[..idx], entry);
          FirstErrorStays(accepts, idx + 1);
          return Failure(found.error);
        }
        CollectBatch(accepts[..idx], entry, entries, allFindings, aliases);
        entries, allFindings, aliases := entries + 1, allFindings + found.value, more;
      } else {
        CollectOther(accepts[..idx], entry, entries, allFindings, aliases);
      }
      idx := idx + 1;
    }
    assert accepts[..|accepts|] == accepts;
    CollectedDecides(accepts, entries, allFindings, aliases);
    return Success((entries, allFindings, aliases));
  }

  // The report made of what has been collected.
  function ReportOf(entries: nat, findings: seq<Finding>, aliases: seq<string>): Report {
    Report(if |findings| == 0 then PASS else FAIL, Some(entries > 0), entries,
           if |findings| <= FINDINGS_CAP then findings else findings[..FINDINGS_CAP], |findings|, aliases)
  }

  lemma JudgeCollected(accepts: seq<Json>, entries: nat, findings: seq<Finding>, aliases: seq<string>)
    requires Collected(accepts, entries, findings, aliases)
    ensures Judges(ReportOf(entries, findings, aliases), accepts)
  {
    CollectedDecides(accepts, entries, findings, aliases);
    NoBatchConforms(accepts);
    hide Collected, AllConform, HasBatch, SomeAlias, FindingsFrom, BatchCount, FirstError;
  }

  lemma NoBatchConforms(accepts: seq<Json>)
    ensures !HasBatch(accepts) ==> AllConform(accepts)
  {
    hide IsBatch, Conforms;
  }

  method Evaluate(payload: Json, httpStatus: Option<int>) returns (r: Result<Report, Raised>)
    ensures httpStatus != Some(402) ==> r == Success(Report(PASS, Some(false), 0, [], 0, []))
    ensures httpStatus == Some(402) && Accepts(payload).None? ==> r == Success(Report(ERROR, None, 0, [], 0, []))
    ensures httpStatus == Some(402) && Accepts(payload).Some? ==>
              && (r.Failure? <==> exists k :: 0 <= k < |Accepts(payload).value| && Fails(Accepts(payload).value[k]))
              && (r.Failure? ==> FirstError(Accepts(payload).value) == Some(r.error))
              && (r.Success? ==> Judges(r.value, Accepts(payload).value))
  {
    if httpStatus != Some(402) {
      return Success(Report(PASS, Some(false), 0, [], 0, []));
    }
    var accepts := Accepts(payload);
    if accepts.None? {
      return Success(Report(ERROR, None, 0, [], 0, []));
    }
    var all := Collect(accepts.value);
    FirstErrorIff(accepts.value);
    if all.Failure? {
      return Failure(all.error);
    }
    var (entries, allFindings, aliases) := all.value;
    hide Collected, Judges, FirstError, Fails;
    JudgeCollected(accepts.value, entries, allFindings, aliases);
    var total := |allFindings|;
    var capped := if total <= FINDINGS_CAP then allFindings else allFindings[..FINDINGS_CAP];
    var status := if total == 0 then PASS else FAIL;
    return Success(Report(status, Some(entries > 0), entries, capped, total, aliases));
  }

  lemma BatchIsObject(entry: Json)
    requires IsBatch(entry)
    ensures entry.Obj?
  {
  }

  lemma {:induction false} DigitsBound(n: nat, k: nat)
    requires k >= 1 && n < Pow10(k)
    ensures |ToDecimal(n)| <= k
  {
    if n >= 10 {
      DigitsBound(n / 10, k - 1);
    }
  }

  function Pow10(k: nat): nat { if k == 0 then 1 else 10 * Pow10(k - 1) }

  lemma DelaysAreShort(d: int)
    requires 0 <= d <= WITHDRAW_DELAY_MAX
    ensures |ToDecimal(d)| <= 7
  {
    assert Pow10(4) == 10000;
    assert Pow10(7) == 10000000;
    DigitsBound(d, 7);
  }

  /** The rules alone would call such an entry non-conforming; the check raises instead. */
  lemma RaisersNeverConform(e: map<string, Json>)
    requires EntryError(e).Some?
    ensures !Conforms(e)
  {
    if LongDelay(e) && DelayRule(Get(e, "extra").fields) {
      var x := Get(e, "extra").fields;
      var d :| WITHDRAW_DELAY_MIN <= d <= WITHDRAW_DELAY_MAX && DenotesDelay(Get(x, "withdrawDelay"), d);
      DelaysAreShort(d);
    }
  }

  /** An entry raises ValueError exactly when its delay is the numeral of more than 4300 digits,
      give or take blanks around it, and else TypeError exactly when its transfer method is a list
      or an object. */
  lemma EntryErrorIff(e: map<string, Json>)
    ensures EntryError(e) == Some(ValueError) <==>
              && Get(e, "extra").Obj? && Get(Get(e, "extra").fields, "withdrawDelay").Str?
              && exists n: nat :: |ToDecimal(n)| > 4300 && Strip(Get(Get(e, "extra").fields, "withdrawDelay").s) == ToDecimal(n)
    ensures EntryError(e) == Some(TypeError) <==>
              && EntryError(e) != Some(ValueError) && Get(e, "extra").Obj?
              && (Get(Get(e, "extra").fields, "assetTransferMethod").Arr? || Get(Get(e, "extra").fields, "assetTransferMethod").Obj?)
  {
    if Get(e, "extra").Obj? && Get(Get(e, "extra").fields, "withdrawDelay").Str? {
      var s := Strip(Get(Get(e, "extra").fields, "withdrawDelay").s);
      hide Strip;
      if Canonical(s) {
        CanonicalPrintsBack(s);
        assert s == ToDecimal(DigitsValue(s));
      }
      forall n: nat | s == ToDecimal(n) ensures Canonical(s) {
        DecimalReadsBack(n);
      }
    }
  }

  /** A transfer method that is a list makes the check raise TypeError. */
  lemma TypeErrorExample()
    ensures exists e: map<string, Json> :: IsBatch(Obj(e)) && EntryError(e) == Some(TypeError)
  {
    var e := map["scheme" := Str("batch-settlement"), "extra" := Obj(map["assetTransferMethod" := Arr([])])];
    BatchScheme();
    assert IsBatch(Obj(e)) && Unhashable(e) && !LongDelay(e);
  }

  /** A delay of 4301 ones makes it raise ValueError. */
  lemma ValueErrorExample()
    ensures exists e: map<string, Json> :: IsBatch(Obj(e)) && EntryError(e) == Some(ValueError)
  {
    var ones: string := seq(MAX_DIGITS + 1, _ => '1');
    var e := map["scheme" := Str("batch-settlement"), "extra" := Obj(map["withdrawDelay" := Str(ones)])];
    BatchScheme();
    assert ones[0] == '1' && ones[|ones| - 1] == '1';
    assert StripLeft(ones) == ones && StripRight(ones) == ones;
    assert IsBatch(Obj(e)) && LongDelay(e);
  }

  lemma BatchScheme()
    ensures Strip("batch-settlement") == "batch-settlement"
  {
    assert StripLeft("batch-settlement") == "batch-settlement";
  }
}
