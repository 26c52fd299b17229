/**
 * The data a text-document template is filled with (`voofai.lib.word.dto.WordData`):
 * a map from placeholder key to text, where a key may map to null.
 */
module WordDto {
  import opened Outcomes
  import opened Values
  import opened ExcelDto

  /** A Java `Number`: an integral type prints as `Integer.toString`, other kinds print themselves. */
  datatype Number = IntegerNumber(integer: int) | DecimalNumber(decimal: Decimal)

  /** `Number.toString()`. */
  function NumberText(n: Number): (s: string)
    ensures n.IntegerNumber? ==> ParseInt(s) == Some(n.integer)
  {
    match n
    case IntegerNumber(i) =>
      IntToStringRoundTrip(i);
      IntToString(i)
    case DecimalNumber(d) => d.printed
  }

  /** The exception a call ends with instead of returning. */
  datatype Thrown = NullPointerException

  class WordData {
    /** `None` is a null string value. */
    var params: map<string, Option<string>>

    constructor ()
      ensures params == map[]
    {
      params := map[];
    }

    /** `addParam(key, String)`. */
    method AddParamText(key: string, val: Option<string>) returns (self: WordData)
      modifies this
      ensures self == this
      ensures params == old(params)[key := val]
    {
      params := params[key := val];
      self := this;
    }

    /**
     * `addParam(key, Number)`: the number's text. `None` is a null number,
     * whose `toString` throws before the map is touched.
     */
    method AddParamNumber(key: string, val: Option<Number>) returns (r: Result<WordData, Thrown>)
      modifies this
      ensures val.None? ==> r == Failure(NullPointerException) && params == old(params)
      ensures val.Some? ==> r == Success(this) && params == old(params)[key := Some(NumberText(val.value))]
    {
      if val.None? {
        return Failure(NullPointerException);
      }
      params := params[key := Some(NumberText(val.value))];
      r := Success(this);
    }

    /** `addParam(key, LocalDate)`: `dd.MM.yyyy`, or "N/A" for a null date. */
    method AddParamDate(key: string, val: Option<Date>) returns (self: WordData)
      modifies this
      ensures self == this
      ensures params == old(params)[key := Some(DateText(val))]
    {
      params := params[key := Some(DateText(val))];
      self := this;
    }

    /** `addAll(newParams)`: every entry of the argument, which wins on a shared key. */
    method AddAll(newParams: map<string, Option<string>>) returns (self: WordData)
      modifies this
      ensures self == this
      ensures params == Merged(old(params), newParams)
    {
      params := params + newParams;
      self := this;
    }
  }

  /** `putAll`: the new entries override, the other old entries stay. */
  function Merged(current: map<string, Option<string>>, added: map<string, Option<string>>): (m: map<string, Option<string>>)
    ensures m.Keys == current.Keys + added.Keys
    ensures forall k :: k in added ==> m[k] == added[k]
    ensures forall k :: k in current && k !in added ==> m[k] == current[k]
  {
    current + added
  }

  /** Adding the same entries twice changes nothing the second time. */
  lemma MergedIdempotent(m: map<string, Option<string>>, n: map<string, Option<string>>)
    ensures Merged(Merged(m, n), n) == Merged(m, n)
  {
  }

  /** One `addAll` of a one-entry map is the same as one `addParam`. */
  lemma MergedSingleton(m: map<string, Option<string>>, key: string, val: Option<string>)
    ensures Merged(m, map[key := val]) == m[key := val]
  {
  }
}
