/**
 * Browser size classes and the image servlet's choice of a serving size.
 *
 * `ImageServlet.doGet` reads the browser's width and height from cookies and the image class and
 * image key from the query string, then redirects to the image's serving URL with a size suffix
 * `=sN` chosen from the image class, the browser class and the image's orientation. The cookies and
 * the `name=value` pairs the query-string pattern matches are inputs; the datastore behind
 * `KeyFactory.stringToKey` and `new MediaImage(key)` is a pair of maps.
 */
module ImageServing {
  import opened Wrappers
  import Media

  // ---------------------------------------------------------------------------------------------
  // Browser classes

  datatype BrowserClass = MOBILE | TABLET | DESKTOP
  {
    /** The position of the class in the declaration order MOBILE < TABLET < DESKTOP. */
    function Rank(): nat
    {
      match this
      case MOBILE => 0
      case TABLET => 1
      case DESKTOP => 2
    }
  }

  /** `BrowserClasses.classForWidth`: up to 600 pixels is mobile, up to 992 a tablet, wider a desktop. */
  function ClassForWidth(width: int): (c: BrowserClass)
    ensures c == MOBILE <==> width <= 600
    ensures c == TABLET <==> 600 < width <= 992
    ensures c == DESKTOP <==> 992 < width
  {
    if width <= 600 then MOBILE
    else if width <= 992 then TABLET
    else DESKTOP
  }

  /** A wider screen never falls in an earlier class. */
  lemma ClassForWidthMonotone(w1: int, w2: int)
    requires w1 <= w2
    ensures ClassForWidth(w1).Rank() <= ClassForWidth(w2).Rank()
  {
  }

  // ---------------------------------------------------------------------------------------------
  // Java integers and strings

  const INT_MIN := -0x8000_0000
  const INT_MAX := 0x7fff_ffff

  predicate IsInt32(n: int)
  {
    INT_MIN <= n <= INT_MAX
  }

  /** Java's `int` multiplication result: the exact product wrapped into 32 bits. */
  function Wrap32(x: int): (r: int)
    ensures IsInt32(r)
    ensures IsInt32(x) ==> r == x
    ensures (r - x) % 0x1_0000_0000 == 0
  {
    var m := x % 0x1_0000_0000;
    if m > INT_MAX then m - 0x1_0000_0000 else m
  }

  /** Java's `int` division by a positive divisor: it truncates toward zero. */
  function JavaDiv(a: int, b: int): int
    requires b > 0
  {
    if a >= 0 then a / b else -((-a) / b)
  }

  predicate IsDigit(c: char)
  {
    '0' <= c <= '9'
  }

  predicate AllDigits(s: string)
  {
    forall i :: 0 <= i < |s| ==> IsDigit(s[i])
  }

  /** The value of a string of decimal digits. */
  function DigitsValue(s: string): nat
    requires AllDigits(s)
  {
    if s == [] then 0
    else DigitsValue(s[..|s| - 1]) * 10 + (s[|s| - 1] as int - '0' as int)
  }

  /**
   * `Integer.parseInt`: an optional sign and at least one decimal digit, whose value fits in an
   * `int`; anything else throws NumberFormatException, which is `None` here.
   */
  function ParseInt(s: string): (r: Option<int>)
    ensures r.Some? ==> IsInt32(r.value)
  {
    if s == [] then None
    else if s[0] == '-' || s[0] == '+' then
      if |s| == 1 || !AllDigits(s[1..]) then None
      else
        var v := if s[0] == '-' then -(DigitsValue(s[1..]) as int) else DigitsValue(s[1..]) as int;
        if IsInt32(v) then Some(v) else None
    else if !AllDigits(s) then None
    else if IsInt32(DigitsValue(s)) then Some(DigitsValue(s))
    else None
  }

  function Digit(d: int): char
    requires 0 <= d < 10
  {
    ('0' as int + d) as char
  }

  /** The decimal digits of `n`, without leading zeros. */
  function ShowNat(n: nat): string
  {
    if n < 10 then [Digit(n)] else ShowNat(n / 10) + [Digit(n % 10)]
  }

  /** Java's `String.valueOf(int)`: the decimal form, with `-` before a negative number. */
  function Show(n: int): string
  {
    if n < 0 then "-" + ShowNat(-n) else ShowNat(n)
  }

  /** The decimal form of a natural number is a non-empty digit string of that value. */
  lemma {:induction false} ShowNatDigits(n: nat)
    ensures |ShowNat(n)| >= 1 && AllDigits(ShowNat(n))
    ensures DigitsValue(ShowNat(n)) == n
    decreases n
  {
    if n >= 10 {
      ShowNatDigits(n / 10);
      var s := ShowNat(n);
      assert s[..|s| - 1] == ShowNat(n / 10);
    }
  }

  /** `Integer.parseInt` reads back what `String.valueOf` writes, for every `int`. */
  lemma ParseShow(n: int)
    requires IsInt32(n)
    ensures ParseInt(Show(n)) == Some(n)
  {
    if n < 0 {
      ShowNatDigits(-n);
      assert Show(n)[1..] == ShowNat(-n);
    } else {
      ShowNatDigits(n);
      assert ShowNat(n)[0] != '-' && ShowNat(n)[0] != '+';
    }
  }

  /** Values with no digit, with a stray sign or with other characters are refused. */
  lemma ParseIntRefuses()
    ensures ParseInt("") == None && ParseInt("-") == None && ParseInt("+") == None
    ensures ParseInt("wide") == None && ParseInt("-1x") == None
  {
    assert !IsDigit("wide"[0]);
    assert !IsDigit("-1x"[1..][1]);
  }

  /** ASCII upper-casing, which is all `toUpperCase` does to the letters the query pattern admits. */
  function ToUpper(s: string): (u: string)
    ensures |u| == |s|
    ensures forall i :: 0 <= i < |s| ==> u[i] == (if 'a' <= s[i] <= 'z' then (s[i] as int - 32) as char else s[i])
  {
    if s == [] then [] else ToUpper(s[..|s| - 1]) + [if 'a' <= s[|s| - 1] <= 'z' then (s[|s| - 1] as int - 32) as char else s[|s| - 1]]
  }

  // ---------------------------------------------------------------------------------------------
  // Image classes

  datatype ImageClass = BANNER | THUMB | ICON | CARD | GALLERY

  /** The constant's name, as `Enum.name()` gives it. */
  function Name(c: ImageClass): string
  {
    match c
    case BANNER => "BANNER"
    case THUMB => "THUMB"
    case ICON => "ICON"
    case CARD => "CARD"
    case GALLERY => "GALLERY"
  }

  /** `ImageClasses.valueOf`: the constant with exactly that name; any other name throws. */
  function ValueOf(name: string): (r: Option<ImageClass>)
    ensures r.Some? ==> Name(r.value) == name
  {
    if name == "BANNER" then Some(BANNER)
    else if name == "THUMB" then Some(THUMB)
    else if name == "ICON" then Some(ICON)
    else if name == "CARD" then Some(CARD)
    else if name == "GALLERY" then Some(GALLERY)
    else None
  }

  /** `valueOf` finds every constant by its name. */
  lemma ValueOfName(c: ImageClass)
    ensures ValueOf(Name(c)) == Some(c)
  {
  }

  // ---------------------------------------------------------------------------------------------
  // Cookies and query pairs

  datatype Cookie = Cookie(name: string, value: string)

  const WIDTH_COOKIE := "browser-width"
  const HEIGHT_COOKIE := "browser-height"
  const DEFAULT_WIDTH := 990
  const DEFAULT_HEIGHT := 0
  const DEFAULT_CLASS := "CARD"

  /** The value of the last cookie called `name` whose value parses as an `int`, or `dflt`. */
  function CookieValue(cookies: seq<Cookie>, name: string, dflt: int): int
  {
    if cookies == [] then dflt
    else
      var c := cookies[|cookies| - 1];
      if c.name == name && ParseInt(c.value).Some? then ParseInt(c.value).value
      else CookieValue(cookies[..|cookies| - 1], name, dflt)
  }

  /** A cookie that does not parse, or has another name, is passed over: an earlier one still counts. */
  lemma {:induction false} CookieValueSkips(cookies: seq<Cookie>, later: seq<Cookie>, name: string, dflt: int)
    requires forall i :: 0 <= i < |later| ==> later[i].name != name || ParseInt(later[i].value).None?
    ensures CookieValue(cookies + later, name, dflt) == CookieValue(cookies, name, dflt)
    decreases |later|
  {
    if later != [] {
      var shorter := later[..|later| - 1];
      assert (cookies + later)[..|cookies + later| - 1] == cookies + shorter;
      assert (cookies + later)[|cookies + later| - 1] == later[|later| - 1];
      CookieValueSkips(cookies, shorter, name, dflt);
    } else {
      assert cookies + later == cookies;
    }
  }

  /** The loop over the cookies: each `browser-width` or `browser-height` cookie that parses overrides the dimension. */
  method ReadDimensions(cookies: seq<Cookie>) returns (width: int, height: int)
    ensures width == CookieValue(cookies, WIDTH_COOKIE, DEFAULT_WIDTH)
    ensures height == CookieValue(cookies, HEIGHT_COOKIE, DEFAULT_HEIGHT)
  {
    width, height := DEFAULT_WIDTH, DEFAULT_HEIGHT;
    for i := 0 to |cookies|
      invariant width == CookieValue(cookies[..i], WIDTH_COOKIE, DEFAULT_WIDTH)
      invariant height == CookieValue(cookies[..i], HEIGHT_COOKIE, DEFAULT_HEIGHT)
    {
      var c := cookies[i];
      assert cookies[..i + 1][..i] == cookies[..i];
      if c.name == WIDTH_COOKIE {
        var parsed := ParseInt(c.value);
        if parsed.Some? {
          width := parsed.value;
        }
      } else if c.name == HEIGHT_COOKIE {
        var parsed := ParseInt(c.value);
        if parsed.Some? {
          height := parsed.value;
        }
      }
    }
    assert cookies[..|cookies|] == cookies;
  }

  /** `equalsIgnoreCase` against a one-letter name, for the ASCII letters the query pattern admits. */
  predicate NameIs(key: string, lower: char)
    requires 'a' <= lower <= 'z'
  {
    key == [lower] || key == [(lower as int - 32) as char]
  }

  /** The image class the query selects: the upper-cased value of the last `c` pair, or `CARD`. */
  function QueryClass(pairs: seq<(string, string)>): string
  {
    if pairs == [] then DEFAULT_CLASS
    else
      var p := pairs[|pairs| - 1];
      if NameIs(p.0, 'c') then ToUpper(p.1) else QueryClass(pairs[..|pairs| - 1])
  }

  /** The image key the query selects: the value of the last `k` pair that is not a `c` pair, or empty. */
  function QueryKey(pairs: seq<(string, string)>): string
  {
    if pairs == [] then ""
    else
      var p := pairs[|pairs| - 1];
      if !NameIs(p.0, 'c') && NameIs(p.0, 'k') then p.1 else QueryKey(pairs[..|pairs| - 1])
  }

  /** The last `c` pair wins, whatever pairs without that name follow it. */
  lemma {:induction false} LastClassWins(before: seq<(string, string)>, key: string, value: string,
                                        after: seq<(string, string)>)
    requires NameIs(key, 'c')
    requires forall i :: 0 <= i < |after| ==> !NameIs(after[i].0, 'c')
    ensures QueryClass(before + [(key, value)] + after) == ToUpper(value)
    decreases |after|
  {
    var all := before + [(key, value)] + after;
    if after != [] {
      var shorter := after[..|after| - 1];
      assert all[..|all| - 1] == before + [(key, value)] + shorter;
      LastClassWins(before, key, value, shorter);
    } else {
      assert all[|all| - 1] == (key, value);
    }
  }

  /** The last `k` pair wins, whatever pairs without that name follow it. */
  lemma {:induction false} LastKeyWins(before: seq<(string, string)>, key: string, value: string,
                                      after: seq<(string, string)>)
    requires NameIs(key, 'k')
    requires forall i :: 0 <= i < |after| ==> !NameIs(after[i].0, 'k')
    ensures QueryKey(before + [(key, value)] + after) == value
    decreases |after|
  {
    var all := before + [(key, value)] + after;
    if after != [] {
      var shorter := after[..|after| - 1];
      assert all[..|all| - 1] == before + [(key, value)] + shorter;
      LastKeyWins(before, key, value, shorter);
    } else {
      assert all[|all| - 1] == (key, value);
    }
  }

  /** The loop over the matched query pairs. */
  method ReadQuery(pairs: seq<(string, string)>) returns (imageClass: string, imageKey: string)
    ensures imageClass == QueryClass(pairs)
    ensures imageKey == QueryKey(pairs)
  {
    imageClass, imageKey := DEFAULT_CLASS, "";
    for i := 0 to |pairs|
      invariant imageClass == QueryClass(pairs[..i])
      invariant imageKey == QueryKey(pairs[..i])
    {
      var (key, value) := pairs[i];
      assert pairs[..i + 1][..i] == pairs[..i];
      if key == "c" || key == "C" {
        imageClass := ToUpper(value);
      } else if key == "k" || key == "K" {
        imageKey := value;
      }
    }
    assert pairs[..|pairs|] == pairs;
  }

  // ---------------------------------------------------------------------------------------------
  // The size decision

  /**
   * The browser class of a screen: from the width when it is wider than tall, else from the height.
   * So the larger dimension decides: a phone only when both fit in 600, a desktop when either
   * exceeds 992.
   */
  function ScreenClass(width: int, height: int): (c: BrowserClass)
    ensures c == MOBILE <==> width <= 600 && height <= 600
    ensures c == DESKTOP <==> width > 992 || height > 992
    ensures c == TABLET <==> (width > 600 || height > 600) && width <= 992 && height <= 992
  {
    if width > height then ClassForWidth(width) else ClassForWidth(height)
  }

  /** The number `N` of the `=sN` suffix for the sized image classes. */
  function SizeFor(c: ImageClass, browser: BrowserClass, landscape: bool, width: int, height: int): int
    requires c != THUMB && c != ICON
  {
    var d := if landscape then width else height;
    match c
    case CARD => (match browser
                  case MOBILE => d
                  case TABLET => JavaDiv(d, 2)
                  case DESKTOP => JavaDiv(d, 3))
    case BANNER => d
    case GALLERY => if browser == TABLET && !landscape then JavaDiv(Wrap32(height * 3), 4) else d
  }

  /** The size suffix appended to the serving URL. */
  function Suffix(c: ImageClass, browser: BrowserClass, landscape: bool, width: int, height: int): string
  {
    match c
    case THUMB => "=s128"
    case ICON => "=s32"
    case _ => "=s" + Show(SizeFor(c, browser, landscape, width, height))
  }

  /**
   * Cards get smaller on larger screens: a non-negative dimension is served whole on a phone, halved
   * on a tablet and divided by three on a desktop; banners are always served whole.
   */
  lemma CardSizes(landscape: bool, width: int, height: int)
    requires (if landscape then width else height) >= 0
    ensures var d := if landscape then width else height;
      && SizeFor(CARD, MOBILE, landscape, width, height) == d
      && SizeFor(CARD, TABLET, landscape, width, height) == d / 2
      && SizeFor(CARD, DESKTOP, landscape, width, height) == d / 3
      && d / 3 <= d / 2 <= d
      && (forall b :: SizeFor(BANNER, b, landscape, width, height) == d)
  {
  }

  /** A gallery image is served at the chosen dimension, except a portrait one on a tablet: three quarters of its height. */
  lemma GallerySizes(browser: BrowserClass, landscape: bool, width: int, height: int)
    requires IsInt32(height)
    ensures browser == TABLET && !landscape && 0 <= height <= INT_MAX / 3 ==>
              SizeFor(GALLERY, browser, landscape, width, height) == height * 3 / 4
    ensures !(browser == TABLET && !landscape) ==>
              SizeFor(GALLERY, browser, landscape, width, height) == if landscape then width else height
  {
  }

  /** Thumbnails and icons have a fixed size, whatever the screen and the image. */
  lemma FixedSizes(b1: BrowserClass, l1: bool, w1: int, h1: int, b2: BrowserClass, l2: bool, w2: int, h2: int)
    ensures Suffix(THUMB, b1, l1, w1, h1) == Suffix(THUMB, b2, l2, w2, h2) == "=s" + Show(128)
    ensures Suffix(ICON, b1, l1, w1, h1) == Suffix(ICON, b2, l2, w2, h2) == "=s" + Show(32)
  {
    assert ShowNat(128) == ShowNat(12) + [Digit(8)] == ShowNat(1) + [Digit(2)] + [Digit(8)];
    assert ShowNat(32) == ShowNat(3) + [Digit(2)];
  }

  /** What the servlet does with the response. */
  datatype Response =
    | NotFound                         // status 404 and nothing else
    | Failure(exception: string)       // an exception escapes `doGet`
    | Redirects(locations: seq<string>) // the `sendRedirect` calls, in order

  /**
   * The image `doGet` serves for a non-empty key: `keys` holds the key strings
   * `KeyFactory.stringToKey` can decode (others throw), `stored` the image entities. A key of
   * another kind throws; a missing image is logged and leaves the image null.
   */
  function ImageFor(imageKey: string, keys: map<string, Media.Key>,
                    stored: map<Media.Key, Media.ImageEntity>): Result<Option<Media.MediaImage>, string>
  {
    if imageKey !in keys then Err("IllegalArgumentException")
    else
      var key := keys[imageKey];
      match Media.ImageFromKey(key, stored)
      case Ok(image) => Ok(Some(image))
      case Err(e) => if key.kind != Media.IMAGE_KIND then Err("IllegalArgumentException") else Ok(None)
  }

  /** The sized URL of an image for an image class and a screen. */
  function SizedUrl(image: Media.MediaImage, c: ImageClass, width: int, height: int): string
  {
    image.servingUrl + Suffix(c, ScreenClass(width, height), image.IsLandscape(), width, height)
  }

  /**
   * The rest of `doGet` once the dimensions and the query values are known. Reading the serving
   * URL of a null image throws NullPointerException before the image class is looked up.
   */
  function Respond(width: int, height: int, imageClass: string, imageKey: string,
                   keys: map<string, Media.Key>, stored: map<Media.Key, Media.ImageEntity>): Response
  {
    if imageKey == "" then NotFound
    else
      match ImageFor(imageKey, keys, stored)
      case Err(e) => Failure(e)
      case Ok(None) => Failure("NullPointerException")
      case Ok(Some(image)) =>
        match ValueOf(imageClass)
        case None => Failure("IllegalArgumentException")
        case Some(c) => Redirects([SizedUrl(image, c, width, height), image.servingUrl])
  }

  /**
   * `ImageServlet.doGet` as written: `cookies` is `None` when the request has none
   * (`getCookies` returns null) and `pairs` is `None` when it has no query string.
   */
  method DoGet(cookies: Option<seq<Cookie>>, pairs: Option<seq<(string, string)>>,
               keys: map<string, Media.Key>, stored: map<Media.Key, Media.ImageEntity>) returns (r: Response)
    ensures cookies.None? || pairs.None? ==> r == Failure("NullPointerException")
    ensures cookies.Some? && pairs.Some? ==>
              r == Respond(CookieValue(cookies.value, WIDTH_COOKIE, DEFAULT_WIDTH),
                           CookieValue(cookies.value, HEIGHT_COOKIE, DEFAULT_HEIGHT),
                           QueryClass(pairs.value), QueryKey(pairs.value), keys, stored)
  {
    if cookies.None? {
      return Failure("NullPointerException");
    }
    var width, height := ReadDimensions(cookies.value);
    if pairs.None? {
      return Failure("NullPointerException");
    }
    var imageClass, imageKey := ReadQuery(pairs.value);
    r := Respond(width, height, imageClass, imageKey, keys, stored);
  }

  /**
   * As written, a served image always gets two redirects, the sized URL and then the plain one; the
   * servlet API refuses the second once the first has committed the response.
   */
  lemma RespondRedirectsTwice(width: int, height: int, imageClass: string, imageKey: string,
                              keys: map<string, Media.Key>, stored: map<Media.Key, Media.ImageEntity>)
    requires imageKey != "" && ImageFor(imageKey, keys, stored).Ok? && ImageFor(imageKey, keys, stored).value.Some?
    requires ValueOf(imageClass).Some?
    ensures var image := ImageFor(imageKey, keys, stored).value.value;
      Respond(width, height, imageClass, imageKey, keys, stored)
      == Redirects([SizedUrl(image, ValueOf(imageClass).value, width, height), image.servingUrl])
  {
  }

  /** The response evidently intended: the sized redirect alone. */
  function RespondIntended(width: int, height: int, imageClass: string, imageKey: string,
                           keys: map<string, Media.Key>, stored: map<Media.Key, Media.ImageEntity>): Response
  {
    match Respond(width, height, imageClass, imageKey, keys, stored)
    case Redirects(locations) => Redirects(locations[..1])
    case other => other
  }

  /** With the intended response a served image gets exactly one redirect, to its sized URL; nothing else changes. */
  lemma RespondIntendedRedirectsOnce(width: int, height: int, imageClass: string, imageKey: string,
                                     keys: map<string, Media.Key>, stored: map<Media.Key, Media.ImageEntity>)
    ensures var r := RespondIntended(width, height, imageClass, imageKey, keys, stored);
            var written := Respond(width, height, imageClass, imageKey, keys, stored);
      && (written.Redirects? <==> r.Redirects?)
      && (r.Redirects? ==> r.locations == [written.locations[0]]
                           && r.locations[0] == SizedUrl(ImageFor(imageKey, keys, stored).value.value,
                                                         ValueOf(imageClass).value, width, height))
      && (!r.Redirects? ==> r == written)
  {
  }

  /** An empty image key gives 404 and no redirect. */
  lemma EmptyKeyNotFound(width: int, height: int, imageClass: string,
                         keys: map<string, Media.Key>, stored: map<Media.Key, Media.ImageEntity>)
    ensures Respond(width, height, imageClass, "", keys, stored) == NotFound
  {
  }
}
