/**
  The checks and value normalisations applied to one transaction's key/value
  pairs once they have been tokenised: the station-name, transaction-type and
  unknown-code checks, the translation from component codes to attribute
  names, and the per-attribute clean-ups of the station name, the latitude,
  the longitude and the web-ready code.
*/
module Semantics {
  import opened Wrappers
  import opened Text
  import opened CodeTable
  import Tokens

  type Pair = Tokens.Pair

  /** The keys of the pairs, in order. */
  function Keys(kvPairs: seq<Pair>): (keys: seq<string>)
    ensures |keys| == |kvPairs|
    ensures forall i :: 0 <= i < |kvPairs| ==> keys[i] == kvPairs[i].0
  {
    seq(|kvPairs|, i requires 0 <= i < |kvPairs| => kvPairs[i].0)
  }

  /** How often `x` occurs in `s` (the source's `len` of a filtered list and `list.count`). */
  function Count<T(==)>(s: seq<T>, x: T): nat
    decreases |s|
  {
    if s == [] then 0 else Count(s[..|s| - 1], x) + (if s[|s| - 1] == x then 1 else 0)
  }

  lemma {:induction false} CountZero<T>(s: seq<T>, x: T)
    ensures Count(s, x) == 0 <==> x !in s
    decreases |s|
  {
    if s != [] {
      var q := s[..|s| - 1];
      assert s == q + [s[|s| - 1]];
      CountZero(q, x);
    }
  }

  /** Exactly one occurrence means exactly one index holds `x`. */
  lemma {:induction false} CountOnce<T>(s: seq<T>, x: T)
    ensures Count(s, x) == 1 <==>
      exists i :: 0 <= i < |s| && s[i] == x && forall j :: 0 <= j < |s| && s[j] == x ==> j == i
    decreases |s|
  {
    if s != [] {
      var n := |s| - 1;
      var q := s[..n];
      assert s == q + [s[n]];
      CountZero(q, x);
      CountOnce(q, x);
      if Count(s, x) == 1 && s[n] != x {
        var i :| 0 <= i < |q| && q[i] == x && forall j :: 0 <= j < |q| && q[j] == x ==> j == i;
        assert s[i] == x;
      }
    }
  }

  /** At least two occurrences means two distinct indices hold `x`. */
  lemma {:induction false} CountTwice<T>(s: seq<T>, x: T)
    ensures Count(s, x) >= 2 <==> exists i, j :: 0 <= i < j < |s| && s[i] == x && s[j] == x
    decreases |s|
  {
    if s != [] {
      var n := |s| - 1;
      var q := s[..n];
      assert s == q + [s[n]];
      CountZero(q, x);
      CountTwice(q, x);
      if Count(s, x) >= 2 {
        if s[n] == x {
          var i :| 0 <= i < |q| && q[i] == x;
          assert s[i] == x;
        } else {
          var i, j :| 0 <= i < j < |q| && q[i] == x && q[j] == x;
          assert s[i] == x && s[j] == x;
        }
      } else if exists i, j :: 0 <= i < j < |s| && s[i] == x && s[j] == x {
        var i, j :| 0 <= i < j < |s| && s[i] == x && s[j] == x;
        assert q[i] == x;
      }
    }
  }

  // ----- has_duplicate_station_name_keys -----

  /** Some earlier and some later pair both carry a station-name code. */
  predicate StationNameTwice(kvPairs: seq<Pair>, table: map<string, string>) {
    exists i, j :: 0 <= i < j < |kvPairs| && Names(table, kvPairs[i].0, "stationName") && Names(table, kvPairs[j].0, "stationName")
  }

  /** The scan for a second station-name code, stopping at the first repeat. */
  method HasDuplicateStationNameKeys(kvPairs: seq<Pair>, table: map<string, string>) returns (hasDuplicate: bool)
    ensures hasDuplicate <==> StationNameTwice(kvPairs, table)
  {
    var found := false;
    hasDuplicate := false;
    ghost var first := 0;
    for n := 0 to |kvPairs|
      invariant found ==> first < n && Names(table, kvPairs[first].0, "stationName")
      invariant forall k :: 0 <= k < n && Names(table, kvPairs[k].0, "stationName") ==> found && k == first
      invariant !hasDuplicate
    {
      if Names(table, kvPairs[n].0, "stationName") {
        if found {
          assert Names(table, kvPairs[first].0, "stationName") && Names(table, kvPairs[n].0, "stationName");
          hasDuplicate := true;
          break;
        } else {
          found := true;
          first := n;
        }
      }
    }
  }

  /** Under any table in which exactly the codes 900 and 12 name the station. */
  lemma StationNameTwiceByCodes(kvPairs: seq<Pair>, table: map<string, string>)
    requires forall key :: Names(table, key, "stationName") <==> key == "900" || key == "12"
    ensures StationNameTwice(kvPairs, table) <==>
      exists i, j :: 0 <= i < j < |kvPairs| && kvPairs[i].0 in {"900", "12"} && kvPairs[j].0 in {"900", "12"}
  {
  }

  /** In code terms: the flag is raised by two pairs keyed 900 or 12, in any combination. */
  lemma StationNameTwiceCodes(kvPairs: seq<Pair>)
    ensures StationNameTwice(kvPairs, KeyToAttrMapping) <==>
      exists i, j :: 0 <= i < j < |kvPairs| && kvPairs[i].0 in {"900", "12"} && kvPairs[j].0 in {"900", "12"}
  {
    forall key {
      StationNameCodes(key);
    }
    StationNameTwiceByCodes(kvPairs, KeyToAttrMapping);
  }

  // ----- has_transaction_type -----

  function HasTransactionType(kvPairs: seq<Pair>): bool {
    Count(Keys(kvPairs), "T") == 1
  }

  /** Exactly one pair is keyed `T`: a missing and a repeated transaction type both fail. */
  lemma HasTransactionTypeUnique(kvPairs: seq<Pair>)
    ensures HasTransactionType(kvPairs) <==>
      exists i :: 0 <= i < |kvPairs| && kvPairs[i].0 == "T" &&
        forall j :: 0 <= j < |kvPairs| && kvPairs[j].0 == "T" ==> j == i
  {
    var keys := Keys(kvPairs);
    CountOnce(keys, "T");
  }

  // ----- invalid_key_codes -----

  function InvalidKeyCodes(kvPairs: seq<Pair>, table: map<string, string>): seq<string>
    decreases |kvPairs|
  {
    if kvPairs == [] then []
    else
      var key := kvPairs[|kvPairs| - 1].0;
      InvalidKeyCodes(kvPairs[..|kvPairs| - 1], table) + (if key in table then [] else [key])
  }

  /**
    Each code outside the table is reported as often as it occurs among the
    keys, and no code of the table is reported.
  */
  lemma {:induction false} InvalidKeyCodesCount(kvPairs: seq<Pair>, table: map<string, string>, code: string)
    ensures Count(InvalidKeyCodes(kvPairs, table), code) ==
      if code in table then 0 else Count(Keys(kvPairs), code)
    decreases |kvPairs|
  {
    if kvPairs != [] {
      var n := |kvPairs| - 1;
      var shorter := kvPairs[..n];
      InvalidKeyCodesCount(shorter, table, code);
      var keys := Keys(kvPairs);
      assert Keys(shorter) == keys[..n];
      var key := kvPairs[n].0;
      var front := InvalidKeyCodes(shorter, table);
      var tail := if key in table then [] else [key];
      CountAppend(front, tail, code);
    }
  }

  lemma CountAppend<T>(s: seq<T>, t: seq<T>, x: T)
    requires |t| <= 1
    ensures Count(s + t, x) == Count(s, x) + Count(t, x)
  {
    if t != [] {
      assert (s + t)[..|s + t| - 1] == s;
      assert [] + t == t;
      assert t[..0] == [];
    } else {
      assert s + t == s;
    }
  }

  /**
    The unknown codes of two runs of pairs are those of the first run
    followed by those of the second: the report keeps the order of the pairs.
  */
  lemma {:induction false} InvalidKeyCodesAppend(a: seq<Pair>, b: seq<Pair>, table: map<string, string>)
    ensures InvalidKeyCodes(a + b, table) == InvalidKeyCodes(a, table) + InvalidKeyCodes(b, table)
    decreases |b|
  {
    if b == [] {
      assert a + b == a;
    } else {
      var n := |b| - 1;
      InvalidKeyCodesAppend(a, b[..n], table);
      assert (a + b)[..|a + b| - 1] == a + b[..n];
      assert (a + b)[|a + b| - 1] == b[n];
    }
  }

  /** The codes reported are exactly the keys the table does not know. */
  lemma InvalidKeyCodesMembers(kvPairs: seq<Pair>, table: map<string, string>, code: string)
    ensures code in InvalidKeyCodes(kvPairs, table) <==>
      code !in table && exists i :: 0 <= i < |kvPairs| && kvPairs[i].0 == code
  {
    InvalidKeyCodesCount(kvPairs, table, code);
    CountZero(InvalidKeyCodes(kvPairs, table), code);
    var keys := Keys(kvPairs);
    CountZero(keys, code);
    if code in keys {
      var i :| 0 <= i < |keys| && keys[i] == code;
      assert kvPairs[i].0 == code;
    }
  }

  // ----- translate_keys_to_attributes -----

  /** `key`'s attribute in the code table is `attribute`. */
  predicate Names(table: map<string, string>, key: string, attribute: string) {
    key in table && table[key] == attribute
  }

  /** The dictionary comprehension: pairs are entered in order, so a later pair overwrites an earlier one. */
  function TranslateKeysToAttributes(kvPairs: seq<Pair>, table: map<string, string>): map<string, string>
    decreases |kvPairs|
  {
    if kvPairs == [] then map[]
    else
      var rest := TranslateKeysToAttributes(kvPairs[..|kvPairs| - 1], table);
      var (key, value) := kvPairs[|kvPairs| - 1];
      if key in table then rest[table[key] := value] else rest
  }

  /** The attributes present are those some pair's known code names. */
  lemma {:induction false} TranslateDomain(kvPairs: seq<Pair>, table: map<string, string>, attribute: string)
    ensures attribute in TranslateKeysToAttributes(kvPairs, table) <==>
      exists i :: 0 <= i < |kvPairs| && Names(table, kvPairs[i].0, attribute)
    decreases |kvPairs|
  {
    if kvPairs != [] {
      var n := |kvPairs| - 1;
      var shorter := kvPairs[..n];
      TranslateDomain(shorter, table, attribute);
      if exists i :: 0 <= i < |kvPairs| && Names(table, kvPairs[i].0, attribute) {
        var i :| 0 <= i < |kvPairs| && Names(table, kvPairs[i].0, attribute);
        if i < n {
          assert shorter[i] == kvPairs[i];
        }
      }
      if exists i :: 0 <= i < |shorter| && Names(table, shorter[i].0, attribute) {
        var i :| 0 <= i < |shorter| && Names(table, shorter[i].0, attribute);
        assert kvPairs[i] == shorter[i];
      }
    }
  }

  /** An attribute holds the value of the last pair whose code names it. */
  lemma {:induction false} TranslateLastWins(kvPairs: seq<Pair>, table: map<string, string>, i: nat)
    requires i < |kvPairs| && kvPairs[i].0 in table
    requires forall j :: i < j < |kvPairs| ==> !Names(table, kvPairs[j].0, table[kvPairs[i].0])
    ensures table[kvPairs[i].0] in TranslateKeysToAttributes(kvPairs, table)
    ensures TranslateKeysToAttributes(kvPairs, table)[table[kvPairs[i].0]] == kvPairs[i].1
    decreases |kvPairs|
  {
    var n := |kvPairs| - 1;
    if i < n {
      var shorter := kvPairs[..n];
      assert shorter[i] == kvPairs[i];
      TranslateLastWins(shorter, table, i);
    }
  }

  /** Codes outside the table contribute nothing. */
  lemma {:induction false} TranslateIgnoresUnknown(kvPairs: seq<Pair>, table: map<string, string>, key: string, value: string)
    requires key !in table
    ensures TranslateKeysToAttributes(kvPairs + [(key, value)], table) == TranslateKeysToAttributes(kvPairs, table)
  {
    assert (kvPairs + [(key, value)])[..|kvPairs|] == kvPairs;
  }

  // ----- remove_leading_and_trailing_single_quotes -----

  function RemoveLeadingAndTrailingSingleQuotes(value: string): string {
    if |value| > 0 && value[0] == '\'' && value[|value| - 1] == '\'' then Slice(value, 1, |value| - 1)
    else value
  }

  /** Quoting and unquoting are inverse. */
  lemma RemoveQuotesRoundTrip(inner: string)
    ensures RemoveLeadingAndTrailingSingleQuotes("'" + inner + "'") == inner
  {
    var v := "'" + inner + "'";
    assert v[1..|v| - 1] == inner;
  }

  /** A value not both opening and closing with a quote is unchanged; a lone quote becomes empty. */
  lemma RemoveQuotesOtherwise(value: string)
    ensures !(|value| >= 2 && value[0] == '\'' && value[|value| - 1] == '\'') ==>
      RemoveLeadingAndTrailingSingleQuotes(value) == if value == "'" then "" else value
  {
  }

  // ----- update_c_code_to_y_code -----

  function UpdateCCodeToYCode(value: string): string {
    if value == "C" then "Y" else value
  }

  /**
    The code `C` becomes `Y`, every other value is kept, so `C` never
    survives, and a second application changes nothing.
  */
  lemma UpdateCCodeToYCodeProperties(value: string)
    ensures value == "C" ==> UpdateCCodeToYCode(value) == "Y"
    ensures UpdateCCodeToYCode(value) != "C"
    ensures value != "C" ==> UpdateCCodeToYCode(value) == value
    ensures UpdateCCodeToYCode(UpdateCCodeToYCode(value)) == UpdateCCodeToYCode(value)
  {
  }

  // ----- add_leading_space -----

  predicate Signed(value: string) {
    |value| > 0 && (value[0] == ' ' || value[0] == '-')
  }

  function AddLeadingSpace(value: string): string {
    if |value| == 0 || value[0] == ' ' || value[0] == '-' then value else " " + value
  }

  /**
    A non-empty result starts with a space or a dash, the input is either kept
    or follows the one added space, and applying the function again changes
    nothing.
  */
  lemma AddLeadingSpaceProperties(value: string)
    ensures var r := AddLeadingSpace(value);
      (value == "" <==> r == "") && (r == "" || Signed(r)) &&
      (r == value || (!Signed(value) && r[0] == ' ' && r[1..] == value)) &&
      AddLeadingSpace(r) == r
  {
  }

  // ----- add_leading_zero -----

  /**
    `None` stands for the IndexError the source raises when it reads the second
    character of a one-character value.
  */
  function AddLeadingZero(value: string): Option<string> {
    if |value| == 0 then Some(value)
    else if |value| == 1 then None
    else if value[1] == '1' || value[1] == '0' then Some(value)
    else Some(value[..1] + "0" + value[1..])
  }

  predicate HasLeadingDigit(value: string)
    requires |value| >= 2
  {
    value[1] == '0' || value[1] == '1'
  }

  /**
    Only a one-character value fails; otherwise the result's second character
    is `0` or `1`, the first character is kept, removing an inserted zero gives
    the input back, and applying the function again changes nothing.
  */
  lemma AddLeadingZeroProperties(value: string)
    ensures AddLeadingZero(value).None? <==> |value| == 1
    ensures AddLeadingZero(value).Some? ==>
      var r := AddLeadingZero(value).value;
      (r == "" <==> value == "") &&
      (|r| >= 2 ==> HasLeadingDigit(r) && r[0] == value[0]) &&
      (r == value || (!HasLeadingDigit(value) && r[1] == '0' && r[..1] + r[2..] == value)) &&
      AddLeadingZero(r) == Some(r)
  {
    if |value| >= 2 && !HasLeadingDigit(value) {
      var r := value[..1] + "0" + value[1..];
      assert r[..1] + r[2..] == value;
    }
  }

  // ----- the longitude, which goes through both -----

  function NormaliseLongitude(value: string): Option<string> {
    AddLeadingZero(AddLeadingSpace(value))
  }

  /**
    The longitude fails exactly when it is a lone space or a lone dash; a
    successful non-empty result is signed and has a digit `0` or `1` after the
    sign.
  */
  lemma NormaliseLongitudeProperties(value: string)
    ensures NormaliseLongitude(value).None? <==> value == " " || value == "-"
    ensures NormaliseLongitude(value).Some? && value != "" ==>
      var r := NormaliseLongitude(value).value;
      |r| >= 2 && Signed(r) && HasLeadingDigit(r)
  {
    AddLeadingSpaceProperties(value);
    AddLeadingZeroProperties(AddLeadingSpace(value));
    if value == " " || value == "-" {
      assert AddLeadingSpace(value) == value;
    }
  }

  /** The longitudes of the source's tests that already carry their sign or their digit. */
  lemma LongitudeKeptExamples()
    ensures NormaliseLongitude("1000000") == Some(" 1000000")
    ensures NormaliseLongitude("-1000000") == Some("-1000000")
    ensures NormaliseLongitude("0900000") == Some(" 0900000")
    ensures NormaliseLongitude("-0900000") == Some("-0900000")
    ensures NormaliseLongitude("") == Some("")
  {
    assert AddLeadingSpace("1000000") == " 1000000";
    assert AddLeadingSpace("0900000") == " 0900000";
    assert " 1000000"[1] == '1' && "-1000000"[1] == '1' && " 0900000"[1] == '0' && "-0900000"[1] == '0';
  }

  /** The longitudes of the source's tests that gain a zero. */
  lemma LongitudeZeroExamples()
    ensures NormaliseLongitude("900000") == Some(" 0900000")
    ensures NormaliseLongitude("-900000") == Some("-0900000")
  {
    assert AddLeadingSpace("900000") == " 900000";
    assert " 900000"[1] == '9' && "-900000"[1] == '9';
    assert " 900000"[..1] + "0" + " 900000"[1..] == " 0900000";
    assert "-900000"[..1] + "0" + "-900000"[1..] == "-0900000";
  }

  /** The latitudes of the source's tests. */
  lemma LatitudeExamples()
    ensures AddLeadingSpace("400000") == " 400000"
    ensures AddLeadingSpace(" 400000") == " 400000"
    ensures AddLeadingSpace("-400000") == "-400000"
  {
  }

  /** The station names of the source's tests: only a name quoted at both ends loses its quotes. */
  lemma StationNameExamples()
    ensures RemoveLeadingAndTrailingSingleQuotes("'YELLVILLE WATERWORKS") == "'YELLVILLE WATERWORKS"
    ensures RemoveLeadingAndTrailingSingleQuotes("YELLVILLE WATERWORKS'") == "YELLVILLE WATERWORKS'"
    ensures RemoveLeadingAndTrailingSingleQuotes("'YELLVILLE WATERWORKS'") == "YELLVILLE WATERWORKS"
  {
    var name := "YELLVILLE WATERWORKS";
    RemoveQuotesRoundTrip(name);
    assert "'YELLVILLE WATERWORKS'" == "'" + name + "'";
    assert "'YELLVILLE WATERWORKS"[|"'YELLVILLE WATERWORKS"| - 1] == 'S';
    assert "YELLVILLE WATERWORKS'"[0] == 'Y';
  }

  // ----- too_many_transactions -----

  const MaxTransactions := 30000

  predicate TooManyTransactions(count: int) {
    count > MaxTransactions
  }
}
