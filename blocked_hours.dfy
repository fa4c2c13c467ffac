/**
 * The "horarios ocupados" text field: a comma-separated list of hours turned
 * into a list of integers (app.py:42). Only fields made of decimal digits are
 * read as numbers; any other field is the ValueError int() raises.
 */
module BlockedHours {
  import opened Outcomes
  import Decimal

  /** The first field that int() refuses. */
  datatype ParseError = NotAnInteger(field: string)

  function CommaCount(s: string): nat {
    if s == [] then 0 else (if s[0] == ',' then 1 else 0) + CommaCount(s[1..])
  }

  /** str.split(','): the pieces between the commas, one more than there are commas. */
  function Split(s: string): (fields: seq<string>)
    ensures |fields| == CommaCount(s) + 1
    ensures forall i :: 0 <= i < |fields| ==> ',' !in fields[i]
  {
    if s == [] then [""]
    else
      var rest := Split(s[1..]);
      if s[0] == ',' then [""] + rest
      else [[s[0]] + rest[0]] + rest[1..]
  }

  /** ",".join(fields). */
  function Join(fields: seq<string>): string
    requires |fields| > 0
  {
    if |fields| == 1 then fields[0] else fields[0] + "," + Join(fields[1..])
  }

  predicate AllNumeric(fields: seq<string>) {
    forall i :: 0 <= i < |fields| ==> Decimal.IsDigits(fields[i])
  }

  /** int() applied to each field in order; the first field that is not a digit string stops the list. */
  function ParseFields(fields: seq<string>): (r: Result<seq<nat>, ParseError>)
    ensures r.Ok? <==> AllNumeric(fields)
    ensures r.Ok? ==> |r.value| == |fields|
    ensures r.Ok? ==> forall i :: 0 <= i < |fields| ==> r.value[i] == Decimal.Value(fields[i])
    ensures r.Err? ==> exists j :: 0 <= j < |fields| && !Decimal.IsDigits(fields[j]) && r.error == NotAnInteger(fields[j])
                                   && forall k :: 0 <= k < j ==> Decimal.IsDigits(fields[k])
  {
    if fields == [] then Ok([])
    else if !Decimal.IsDigits(fields[0]) then Err(NotAnInteger(fields[0]))
    else match ParseFields(fields[1..])
      case Err(e) => Err(e)
      case Ok(rest) => Ok([Decimal.Value(fields[0])] + rest)
  }

  /**
   * list(map(int, text.split(','))) if text else []: the empty text gives no hours,
   * any other text one hour per comma-separated field, in input order.
   */
  function ParseBlockedHours(text: string): (r: Result<seq<nat>, ParseError>)
    ensures text == "" ==> r == Ok([])
    ensures text != "" ==> (r.Ok? <==> AllNumeric(Split(text)))
    ensures text != "" && r.Ok? ==> |r.value| == CommaCount(text) + 1
    ensures text != "" && r.Ok? ==>
      forall i :: 0 <= i < |r.value| ==> r.value[i] == Decimal.Value(Split(text)[i])
  {
    if text == "" then Ok([])
    else
      ParseFields(Split(text))
  }

  /** The canonical text for a list of hours: each rendered in decimal, joined by commas. */
  function Format(hours: seq<nat>): string {
    if hours == [] then "" else Join(seq(|hours|, i requires 0 <= i < |hours| => Decimal.Show(hours[i])))
  }

  lemma {:induction false} JoinPrepend(a: string, fields: seq<string>)
    requires |fields| > 0
    ensures Join([a + fields[0]] + fields[1..]) == a + Join(fields)
  {
    var g := [a + fields[0]] + fields[1..];
    if |fields| > 1 {
      assert g[1..] == fields[1..];
    }
  }

  /** Splitting and joining again gives back the text. */
  lemma {:induction false} JoinSplit(s: string)
    ensures Join(Split(s)) == s
  {
    if s != [] {
      var rest := Split(s[1..]);
      JoinSplit(s[1..]);
      if s[0] == ',' {
        assert ([""] + rest)[1..] == rest;
      } else {
        JoinPrepend([s[0]], rest);
      }
    }
  }

  lemma {:induction false} SplitFree(f: string)
    requires ',' !in f
    ensures Split(f) == [f]
  {
    if f != [] {
      assert ',' !in f[1..];
      SplitFree(f[1..]);
      assert [f[0]] + f[1..] == f;
    }
  }

  lemma {:induction false} SplitAfterField(f: string, s: string)
    requires ',' !in f
    ensures Split(f + "," + s) == [f] + Split(s)
  {
    if f == [] {
      assert f + "," + s == [','] + s;
      assert ([','] + s)[1..] == s;
    } else {
      assert (f + "," + s)[1..] == f[1..] + "," + s;
      assert ',' !in f[1..];
      SplitAfterField(f[1..], s);
      assert [f[0]] + f[1..] == f;
    }
  }

  /** Joining comma-free fields and splitting again gives back the fields. */
  lemma {:induction false} SplitJoin(fields: seq<string>)
    requires |fields| > 0
    requires forall i :: 0 <= i < |fields| ==> ',' !in fields[i]
    ensures Split(Join(fields)) == fields
  {
    if |fields| == 1 {
      SplitFree(fields[0]);
    } else {
      SplitJoin(fields[1..]);
      SplitAfterField(fields[0], Join(fields[1..]));
    }
  }

  /** Parsing the canonical text of a list of hours gives back exactly that list. */
  lemma ParseFormat(hours: seq<nat>)
    ensures ParseBlockedHours(Format(hours)) == Ok(hours)
  {
    if hours != [] {
      var shown := seq(|hours|, i requires 0 <= i < |hours| => Decimal.Show(hours[i]));
      forall i | 0 <= i < |shown| ensures ',' !in shown[i] && Decimal.Value(shown[i]) == hours[i] {
        Decimal.ValueOfShow(hours[i]);
      }
      SplitJoin(shown);
      assert Format(hours) != "" by {
        assert |Split(Format(hours))| > 1 || Split(Format(hours))[0] == shown[0];
      }
      var r := ParseBlockedHours(Format(hours));
      assert r.value == hours;
    }
  }
}
