/**
 * Date keys. The application identifies a calendar day by the date part of
 * `Date.prototype.toISOString()`, that is `toISOString().split('T')[0]`. The
 * clock read and the host's ISO formatting are not modelled: every function
 * here takes the ISO string (or the current one) as a parameter.
 */
module DateUtils {

  predicate IsDigit(c: char) {
    '0' <= c <= '9'
  }

  /** `YYYY-MM-DD`: the shape of a key derived from `toISOString`. */
  predicate IsDateKey(k: string) {
    && |k| == 10
    && IsDigit(k[0]) && IsDigit(k[1]) && IsDigit(k[2]) && IsDigit(k[3]) && k[4] == '-'
    && IsDigit(k[5]) && IsDigit(k[6]) && k[7] == '-' && IsDigit(k[8]) && IsDigit(k[9])
  }

  /**
   * `YYYY-MM-DDTHH:mm:ss.sssZ`: what `toISOString` produces for years 0
   * through 9999.
   */
  predicate IsIsoTimestamp(s: string) {
    && |s| == 24
    && IsDateKey(s[..10]) && s[10] == 'T'
    && IsDigit(s[11]) && IsDigit(s[12]) && s[13] == ':'
    && IsDigit(s[14]) && IsDigit(s[15]) && s[16] == ':'
    && IsDigit(s[17]) && IsDigit(s[18]) && s[19] == '.'
    && IsDigit(s[20]) && IsDigit(s[21]) && IsDigit(s[22]) && s[23] == 'Z'
  }

  /**
   * `iso.split('T')[0]`: the text before the first `'T'`, or all of `iso`
   * when it has none.
   */
  function DateKey(iso: string): (key: string)
    ensures |key| <= |iso| && key == iso[..|key|]
    ensures 'T' !in key
    ensures |key| < |iso| ==> iso[|key|] == 'T'
  {
    if iso == [] || iso[0] == 'T' then []
    else [iso[0]] + DateKey(iso[1..])
  }

  /** Whatever follows the first `'T'` has no bearing on the key. */
  lemma {:induction false} DateKeyOfPrefix(day: string, rest: string)
    requires 'T' !in day
    ensures DateKey(day + ['T'] + rest) == day
  {
    if day != [] {
      assert (day + ['T'] + rest)[1..] == day[1..] + ['T'] + rest;
      DateKeyOfPrefix(day[1..], rest);
    } else {
      assert (day + ['T'] + rest)[0] == 'T';
    }
  }

  /** For a `toISOString` timestamp the key is its first ten characters, a `YYYY-MM-DD` key. */
  lemma DateKeyOfIso(iso: string)
    requires IsIsoTimestamp(iso)
    ensures DateKey(iso) == iso[..10]
    ensures IsDateKey(DateKey(iso))
  {
    var day := iso[..10];
    assert 'T' !in day by {
      forall i | 0 <= i < 10 ensures day[i] != 'T' {
        assert IsDigit(day[i]) || day[i] == '-';
      }
    }
    assert iso == day + ['T'] + iso[11..];
    DateKeyOfPrefix(day, iso[11..]);
  }

  /**
   * Two timestamps get the same key exactly when they fall on the same UTC
   * calendar day, that is when their ISO strings agree on the date part.
   */
  lemma SameDaySameKey(a: string, b: string)
    requires IsIsoTimestamp(a) && IsIsoTimestamp(b)
    ensures DateKey(a) == DateKey(b) <==> a[..10] == b[..10]
  {
    DateKeyOfIso(a);
    DateKeyOfIso(b);
  }

  /** `getCurrentDateKey()`: the key of the current instant, whose ISO string is `nowIso`. */
  function CurrentDateKey(nowIso: string): (key: string)
    ensures IsIsoTimestamp(nowIso) ==> key == nowIso[..10] && IsDateKey(key)
  {
    DateKeyOfIsoIf(nowIso);
    DateKey(nowIso)
  }

  lemma DateKeyOfIsoIf(iso: string)
    ensures IsIsoTimestamp(iso) ==> DateKey(iso) == iso[..10] && IsDateKey(DateKey(iso))
  {
    if IsIsoTimestamp(iso) { DateKeyOfIso(iso); }
  }

  /** `isToday(dateString)`: the string is the key of the current instant. */
  function IsToday(dateString: string, nowIso: string): (today: bool)
    ensures IsIsoTimestamp(nowIso) ==> (today <==> dateString == nowIso[..10])
  {
    dateString == CurrentDateKey(nowIso)
  }
}
