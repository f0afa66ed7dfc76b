/**
 * relativeTime of the recent-questions list: the time since a question
 * was created, as a short Chinese phrase.  The clock reading and the
 * date parsing are outside the model; the input is the difference in
 * milliseconds between now and the creation time (negative under clock
 * skew).
 */
module RecentTime {
  import Rendering

  /** Math.floor(a / b) for a positive divisor; Dafny's division already rounds down then. */
  function FloorDiv(a: int, b: int): (q: int)
    requires b > 0
    ensures q * b <= a < (q + 1) * b
  {
    a / b
  }

  /** The four phrases the list shows. */
  datatype Ago = JustNow | Minutes(m: int) | Hours(h: int) | Days(d: int)

  function Phrase(a: Ago): string
  {
    match a
    case JustNow => "刚刚"
    case Minutes(m) => Count(m) + "分钟前"
    case Hours(h) => Count(h) + "小时前"
    case Days(d) => Count(d) + "天前"
  }

  /** Decimal notation of an integer as a template literal writes it. */
  function Count(n: int): string
  {
    if n < 0 then "-" + Rendering.Decimal(-n) else Rendering.Decimal(n)
  }

  /** The bucket by the code's cascade of floor divisions. */
  function Bucket(diffMs: int): (a: Ago)
    ensures var s := FloorDiv(diffMs, 1000);
      && (a.JustNow? <==> s < 60)
      && (a.Minutes? <==> 60 <= s < 3600)
      && (a.Hours? <==> 3600 <= s < 86400)
      && (a.Days? <==> 86400 <= s)
    ensures a.Minutes? ==> 1 <= a.m <= 59
    ensures a.Hours? ==> 1 <= a.h <= 23
    ensures a.Days? ==> a.d >= 1
  {
    var diffSec := FloorDiv(diffMs, 1000);
    if diffSec < 60 then JustNow
    else
      var diffMin := FloorDiv(diffSec, 60);
      if diffMin < 60 then Minutes(diffMin)
      else
        var diffHour := FloorDiv(diffMin, 60);
        if diffHour < 24 then Hours(diffHour)
        else Days(FloorDiv(diffHour, 24))
  }

  /** relativeTime */
  function RelativeTime(diffMs: int): (text: string)
    ensures text == Phrase(Bucket(diffMs))
  {
    var diffSec := FloorDiv(diffMs, 1000);
    if diffSec < 60 then "刚刚"
    else
      var diffMin := FloorDiv(diffSec, 60);
      if diffMin < 60 then Count(diffMin) + "分钟前"
      else
        var diffHour := FloorDiv(diffMin, 60);
        if diffHour < 24 then Count(diffHour) + "小时前"
        else Count(FloorDiv(diffHour, 24)) + "天前"
  }

  /** Rounding down twice is rounding down once by the product. */
  lemma FloorTwice(a: int, b: int, c: int)
    requires b > 0 && c > 0
    ensures FloorDiv(FloorDiv(a, b), c) == FloorDiv(a, b * c)
  {
    var q := FloorDiv(a, b);
    var r := FloorDiv(q, c);
    assert r * c <= q < (r + 1) * c;
    assert q * b <= a < (q + 1) * b;
    assert r * (b * c) <= a by {
      assert r * (b * c) == (r * c) * b;
      assert (r * c) * b <= q * b;
    }
    assert a < (r + 1) * (b * c) by {
      assert q + 1 <= (r + 1) * c;
      assert (q + 1) * b <= ((r + 1) * c) * b;
      assert ((r + 1) * c) * b == (r + 1) * (b * c);
    }
    UniqueQuotient(a, b * c, r);
  }

  lemma UniqueQuotient(a: int, d: int, r: int)
    requires d > 0 && r * d <= a < (r + 1) * d
    ensures FloorDiv(a, d) == r
  {
  }

  /** The counts shown are the whole minutes, hours or days elapsed. */
  lemma BucketCounts(diffMs: int)
    ensures var s := FloorDiv(diffMs, 1000);
      match Bucket(diffMs)
      case JustNow => true
      case Minutes(m) => m == FloorDiv(s, 60) && m * 60 <= s < (m + 1) * 60
      case Hours(h) => h == FloorDiv(s, 3600) && h * 3600 <= s < (h + 1) * 3600
      case Days(d) => d == FloorDiv(s, 86400) && d * 86400 <= s < (d + 1) * 86400
  {
    var s := FloorDiv(diffMs, 1000);
    FloorTwice(s, 60, 60);
    FloorTwice(s, 3600, 24);
    FloorTwice(FloorDiv(s, 60), 60, 24);
  }
}
