/** The proxy page: a name and a port shown in two fields, stored together as one text, and a change
    handler that takes a port out of the name field and so re-enters itself. */
module ProxyPage {
  import opened Options

  // -------------------------------------------------------------- numbers

  const INT_MAX: nat := 0x7fff_ffff

  function Digit(d: nat): char
    requires d < 10
  {
    '0' + d as char
  }

  predicate IsDigit(c: char) {
    '0' <= c <= '9'
  }

  /** A number in decimal. */
  function Decimal(n: nat): (s: string)
    ensures s != "" && forall k :: 0 <= k < |s| ==> IsDigit(s[k])
    ensures n < 100000 ==> |s| <= 5
    ensures n < 10000 ==> |s| <= 4
    ensures n < 1000 ==> |s| <= 3
    ensures n < 100 ==> |s| <= 2
  {
    if n < 10 then [Digit(n)] else Decimal(n / 10) + [Digit(n % 10)]
  }

  function Min(a: nat, b: nat): nat {
    if a < b then a else b
  }

  /** The number the digits at the front of `s` continue, `n` having been read; held at the largest
      one there is. */
  function Digits(s: string, n: nat): nat
    decreases |s|
  {
    if s == "" || !IsDigit(s[0]) then n else Digits(s[1..], Min(INT_MAX, 10 * n + (s[0] - '0') as nat))
  }

  /** The number a text begins with, behind white space and a sign. */
  function ToInt(s: string): int
    decreases |s|
  {
    if s == "" then 0
    else if s[0] == ' ' || '\t' <= s[0] <= '\r' then ToInt(s[1..])
    else if s[0] == '-' then -(Digits(s[1..], 0) as int)
    else if s[0] == '+' then Digits(s[1..], 0)
    else Digits(s, 0)
  }

  lemma {:induction false} DigitsAppend(s: string, t: string, n: nat)
    requires forall k :: 0 <= k < |s| ==> IsDigit(s[k])
    ensures Digits(s + t, n) == Digits(t, Digits(s, n))
    decreases |s|
  {
    if s == "" {
      assert s + t == t;
    } else {
      assert (s + t)[1..] == s[1..] + t;
      DigitsAppend(s[1..], t, Min(INT_MAX, 10 * n + (s[0] - '0') as nat));
    }
  }

  /** The number a text of digits continues, as large as it may be. */
  function Value(s: string, n: nat): (v: nat)
    requires forall k :: 0 <= k < |s| ==> IsDigit(s[k])
    ensures n <= v
  {
    if s == "" then n
    else
      assert IsDigit(s[0]);
      Value(s[1..], 10 * n + (s[0] - '0') as nat)
  }

  /** Digits only: the number they make up, or the largest one there is. */
  lemma {:induction false} DigitsSaturate(s: string, n: nat)
    requires forall k :: 0 <= k < |s| ==> IsDigit(s[k])
    ensures Digits(s, Min(INT_MAX, n)) == Min(INT_MAX, Value(s, n))
    decreases |s|
  {
    if s != "" {
      var d := (s[0] - '0') as nat;
      assert Min(INT_MAX, 10 * Min(INT_MAX, n) + d) == Min(INT_MAX, 10 * n + d);
      DigitsSaturate(s[1..], 10 * n + d);
    }
  }

  lemma {:induction false} DigitsDecimal(n: nat)
    requires n <= INT_MAX
    ensures Digits(Decimal(n), 0) == n
  {
    if n >= 10 {
      DigitsDecimal(n / 10);
      DigitsAppend(Decimal(n / 10), [Digit(n % 10)], 0);
    }
    assert Digits([Digit(n % 10)], n / 10) == n;
  }

  // -------------------------------------------------------------- name:port

  /** The last colon, or -1. */
  function LastColon(s: string): (r: int)
    ensures r == -1 ==> ':' !in s
    ensures r != -1 ==> 0 <= r < |s| && s[r] == ':' && ':' !in s[r + 1..]
  {
    if s == "" then -1
    else if s[|s| - 1] == ':' then |s| - 1
    else
      var r := LastColon(s[..|s| - 1]);
      assert s == s[..|s| - 1] + [s[|s| - 1]];
      assert r != -1 ==> s[r + 1..] == s[..|s| - 1][r + 1..] + [s[|s| - 1]];
      r
  }

  /** The first colon in front of the character `c`, or -1. */
  function FirstColonBefore(s: string, c: char): (r: int)
    ensures -1 <= r < |s|
    ensures r != -1 ==> r + 1 < |s| && s[r] == ':' && s[r + 1] == c
  {
    if |s| < 2 then -1
    else if s[0] == ':' && s[1] == c then 0
    else
      var r := FirstColonBefore(s[1..], c);
      if r == -1 then -1 else r + 1
  }

  /** A text taken apart: its name part, and its port if it has one. */
  datatype Cracked = Cracked(name: string, port: Option<nat>)

  function Crack(s: string): (r: Cracked)
    ensures |r.name| <= |s|
    ensures r.port.Some? ==> r.port.value < 0x1_0000 && |r.name| < |s|
  {
    var p := LastColon(s);
    if p == -1 || FirstColonBefore(s, '/') == p || FirstColonBefore(s, '\\') == p then Cracked(s, None)
    else if p + 1 == |s| then Cracked(s[..p], None)
    else Cracked(s[..p], Some(ToInt(s[p + 1..]) % 0x1_0000))
  }

  function Joined(name: string, port: nat): string {
    name + ":" + Decimal(port)
  }

  lemma {:induction false} LastColonIs(s: string, p: nat)
    requires p < |s| && s[p] == ':' && forall k :: p < k < |s| ==> s[k] != ':'
    ensures LastColon(s) == p
    decreases |s|
  {
    if p < |s| - 1 {
      LastColonIs(s[..|s| - 1], p);
    }
  }

  lemma ToIntDecimal(n: nat)
    requires n <= INT_MAX
    ensures ToInt(Decimal(n)) == n
  {
    var d := Decimal(n);
    assert IsDigit(d[0]);
    DigitsDecimal(n);
  }

  /** Whatever the name, colons and slashes in it included, name and port come apart again. */
  lemma CrackJoined(name: string, port: nat)
    requires port < 0x1_0000
    ensures Crack(Joined(name, port)) == Cracked(name, Some(port))
  {
    hide Crack, ToInt, LastColon, Decimal;
    var s, d, p := Joined(name, port), Decimal(port), |name|;
    LastColonJoined(name, d);
    ToIntDecimal(port);
    assert s[..p] == name && s[p + 1..] == d;
    assert IsDigit(d[0]);
    CrackAt(s, p, d);
  }

  lemma LastColonJoined(name: string, d: string)
    requires forall k :: 0 <= k < |d| ==> IsDigit(d[k])
    ensures LastColon(name + ":" + d) == |name|
  {
    var s := name + ":" + d;
    forall k | |name| < k < |s|
      ensures s[k] != ':'
    {
      assert IsDigit(d[k - |name| - 1]);
    }
    LastColonIs(s, |name|);
  }

  lemma CrackAt(s: string, p: nat, d: string)
    requires LastColon(s) == p && d != "" && s[p + 1..] == d && IsDigit(d[0])
    ensures Crack(s) == Cracked(s[..p], Some(ToInt(d) % 0x1_0000))
  {
    assert s[p + 1] == d[0];
  }

  // ------------------------------------------------ what is taken apart

  predicate ColonBefore(s: string, k: nat, c: char) {
    k + 1 < |s| && s[k] == ':' && s[k + 1] == c
  }

  /** At `k` stands the last colon of all, and the first one in front of the character `c`. */
  ghost predicate OnlyBefore(s: string, k: nat, c: char) {
    ColonBefore(s, k, c) && (forall j :: 0 <= j < k ==> !ColonBefore(s, j, c)) && LastAt(s, k)
  }

  ghost predicate LastAt(s: string, k: nat) {
    k < |s| && s[k] == ':' && forall j :: k < j < |s| ==> s[j] != ':'
  }

  lemma {:induction false} FirstColonBeforeIs(s: string, c: char)
    ensures var r := FirstColonBefore(s, c);
      if r == -1 then forall k: nat :: !ColonBefore(s, k, c)
      else ColonBefore(s, r, c) && forall k :: 0 <= k < r ==> !ColonBefore(s, k, c)
    decreases |s|
  {
    if |s| >= 2 && !(s[0] == ':' && s[1] == c) {
      FirstColonBeforeIs(s[1..], c);
      assert forall k :: 1 <= k ==> (ColonBefore(s, k, c) <==> ColonBefore(s[1..], k - 1, c));
    }
  }

  /** At a text's last colon: the text is left whole if that is the first colon in front of a slash or of
      a backslash, and otherwise taken apart there. */
  lemma CrackAtLast(s: string, k: nat)
    requires LastAt(s, k)
    ensures Crack(s) ==
      if OnlyBefore(s, k, '/') || OnlyBefore(s, k, '\\') then Cracked(s, None)
      else Cracked(s[..k], if k + 1 == |s| then None else Some(ToInt(s[k + 1..]) % 0x1_0000))
  {
    hide LastColon, FirstColonBefore, ToInt;
    LastColonIs(s, k);
    FirstColonBeforeIs(s, '/');
    FirstColonBeforeIs(s, '\\');
  }

  /** A text is left whole exactly if it has no colon or its last one introduces a path, as the first one
      to do so with that slash. */
  lemma CrackWhole(s: string)
    ensures Crack(s) == Cracked(s, None)
       <==> (forall k :: 0 <= k < |s| ==> s[k] != ':')
            || exists k :: OnlyBefore(s, k, '/') || OnlyBefore(s, k, '\\')
  {
    hide Crack, LastColon;
    var p := LastColon(s);
    if p == -1 {
      CrackColonFree(s);
    } else {
      LastColonFound(s);
      CrackAtLast(s, p);
      assert OnlyBefore(s, p, '/') || OnlyBefore(s, p, '\\') || Crack(s) != Cracked(s, None);
    }
  }

  lemma CrackColonFree(s: string)
    requires LastColon(s) == -1
    ensures Crack(s) == Cracked(s, None) && forall k :: 0 <= k < |s| ==> s[k] != ':'
    ensures forall k: nat, c :: !OnlyBefore(s, k, c)
  {
  }

  lemma LastColonFound(s: string)
    requires LastColon(s) != -1
    ensures LastAt(s, LastColon(s)) && forall k: nat :: LastAt(s, k) ==> k == LastColon(s)
  {
    var p := LastColon(s);
    assert forall k :: p < k < |s| ==> s[k] == s[p + 1..][k - p - 1];
  }

  predicate IsSpace(c: char) {
    c == ' ' || '\t' <= c <= '\r'
  }

  /** A number is read behind white space and a sign, and up to the first character that is no digit. */
  lemma {:induction false} ToIntReads(space: string, sign: string, n: nat, rest: string)
    requires n <= INT_MAX && (forall k :: 0 <= k < |space| ==> IsSpace(space[k]))
    requires sign == "" || sign == "+" || sign == "-"
    requires rest != "" ==> !IsDigit(rest[0])
    ensures ToInt(space + (sign + (Decimal(n) + rest))) == if sign == "-" then -(n as int) else n
    decreases |space|
  {
    hide Decimal, Digits;
    var t := sign + (Decimal(n) + rest);
    if space != "" {
      assert (space + t)[1..] == space[1..] + t;
      ToIntReads(space[1..], sign, n, rest);
    } else {
      assert space + t == t;
      assert IsDigit((Decimal(n) + rest)[0]);
      assert sign == "" ==> t == Decimal(n) + rest;
      assert sign != "" ==> t[1..] == Decimal(n) + rest;
      DigitsThen(n, rest);
    }
  }

  lemma DigitsThen(n: nat, rest: string)
    requires n <= INT_MAX && (rest != "" ==> !IsDigit(rest[0]))
    ensures Digits(Decimal(n) + rest, 0) == n
  {
    DigitsDecimal(n);
    DigitsAppend(Decimal(n), rest, 0);
  }

  // -------------------------------------------------------------- the fields

  /** The two fields: the name, and the port unless it is blank. */
  datatype Fields = Fields(name: string, port: Option<nat>)

  /** Names the change handler leaves alone because more is to follow. */
  predicate Pending(name: string) {
    name == "http:" || name == "ftp:" || name == "https:"
  }

  /** What the fields show once a name has been put into the name field. */
  function Put(name: string, port: Option<nat>): (f: Fields)
    decreases |name|
  {
    if Pending(name) then Fields(name, port)
    else
      var c := Crack(name);
      var shown := if c.port.Some? then c.port else port;
      if c.name != name then
        assert |c.name| < |name|;
        Put(c.name, shown)
      else Fields(name, shown)
  }

  /** The handler would leave this name alone. */
  predicate Settled(name: string) {
    Pending(name) || Crack(name).name == name
  }

  /** Whatever is typed, the handler leaves a name it would leave alone. */
  lemma {:induction false} PutSettles(name: string, port: Option<nat>)
    ensures Settled(Put(name, port).name)
    decreases |name|
  {
    if !Pending(name) && Crack(name).name != name {
      PutSettles(Crack(name).name, if Crack(name).port.Some? then Crack(name).port else port);
    }
  }

  /** An address with a scheme is left alone, whatever the port field holds. */
  lemma PutUrl(scheme: string, host: string, port: Option<nat>)
    requires ':' !in scheme && ':' !in host
    ensures Put(scheme + "://" + host, port) == Fields(scheme + "://" + host, port)
  {
    hide Crack, Pending;
    UrlWhole(scheme, "//" + host);
    assert scheme + ":" + ("//" + host) == scheme + "://" + host;
  }

  lemma UrlWhole(scheme: string, path: string)
    requires ':' !in scheme && ':' !in path && path != "" && path[0] == '/'
    ensures Crack(scheme + ":" + path) == Cracked(scheme + ":" + path, None)
  {
    var s, k := scheme + ":" + path, |scheme|;
    assert forall j :: 0 <= j < k ==> s[j] == scheme[j];
    assert forall j :: k < j < |s| ==> s[j] == path[j - k - 1];
    assert OnlyBefore(s, k, '/');
    CrackAtLast(s, k);
  }

  /** While an address with one of the usual schemes is typed, the field is never rewritten. */
  lemma PutPrefix(scheme: string, host: string, n: nat, port: Option<nat>)
    requires scheme == "http" || scheme == "https" || scheme == "ftp"
    requires ':' !in host && n <= |scheme + "://" + host|
    ensures Put((scheme + "://" + host)[..n], port) == Fields((scheme + "://" + host)[..n], port)
  {
    hide Crack;
    var s, m := scheme + "://" + host, |scheme|;
    if n <= m {
      assert s[..n] == scheme[..n];
      PutColonFree(scheme[..n], port);
    } else {
      assert s == scheme + ":" + ("//" + host);
      assert s[..n] == scheme + ":" + ("//" + host)[..n - m - 1];
      if n == m + 1 {
        assert Pending(s[..n]);
      } else {
        UrlWhole(scheme, ("//" + host)[..n - m - 1]);
      }
    }
  }

  lemma PutColonFree(s: string, port: Option<nat>)
    requires ':' !in s
    ensures Put(s, port) == Fields(s, port)
  {
    hide LastColon, ToInt;
    assert LastColon(s) == -1;
  }

  /** With a port behind it, the port goes to its field and the address stays. */
  lemma PutUrlWithPort(scheme: string, host: string, port: nat, before: Option<nat>)
    requires ':' !in scheme && ':' !in host && port < 0x1_0000
    ensures Put(Joined(scheme + "://" + host, port), before) == Fields(scheme + "://" + host, Some(port))
  {
    hide Crack, Decimal;
    var url := scheme + "://" + host;
    CrackJoined(url, port);
    PutUrl(scheme, host, Some(port));
    var s := Joined(url, port);
    assert s[|s| - 1] == Decimal(port)[|Decimal(port)| - 1];
    assert !Pending(s);
  }

  /** A port that fits into 16 bits stays one. */
  lemma {:induction false} PutPort(name: string, port: Option<nat>)
    requires port.Some? ==> port.value < 0x1_0000
    ensures Put(name, port).port.Some? ==> Put(name, port).port.value < 0x1_0000
    decreases |name|
  {
    if !Pending(name) && Crack(name).name != name {
      PutPort(Crack(name).name, if Crack(name).port.Some? then Crack(name).port else port);
    }
  }

  /** What the fields show of a stored text. */
  function Shown(stored: string): Fields {
    var c := Crack(stored);
    Put(c.name, c.port)
  }

  /** A stored text that is left whole is shown with a blank port. */
  lemma ShownWhole(stored: string)
    requires Crack(stored) == Cracked(stored, None)
    ensures Shown(stored) == Fields(stored, None)
  {
  }

  /** A stored name and port are shown again as they were exactly if the handler leaves the name alone. */
  lemma ShownJoined(name: string, port: nat)
    requires port < 0x1_0000
    ensures Shown(Joined(name, port)) == Fields(name, Some(port)) <==> Settled(name)
  {
    CrackJoined(name, port);
    PutSettles(name, Some(port));
  }

  datatype ProxyInfo = ProxyInfo(strName: string, nameModified: bool)

  /** The fields are good enough to be stored for a protocol: one not marked as modified asks nothing. */
  predicate Complete(p: ProxyInfo, f: Fields) {
    p.nameModified ==> f.name != "" && f.port.Some?
  }

  /** A protocol once the fields have been read for it: a name without a port is stored, too. */
  function Stored(p: ProxyInfo, f: Fields): ProxyInfo {
    if !p.nameModified || f.name == "" then p
    else p.(strName := if f.port.None? then f.name else Joined(f.name, f.port.value % 0x1_0000))
  }

  /** What is shown again of complete fields: a modified name with its port in 16 bits, and whatever
      the unmodified text shows. */
  function Returned(p: ProxyInfo, f: Fields): Fields {
    if !p.nameModified then Shown(p.strName)
    else Fields(f.name, if f.port.None? then None else Some(f.port.value % 0x1_0000))
  }

  /** The fields after going from a protocol to another one and back, as far as the page lets it: what is
      entered for the first one comes back, a name with its port in 16 bits. */
  function AfterSwitches(p: ProxyInfo, f: Fields, q: ProxyInfo, there: bool, back: bool): Fields {
    if !there then f else if !back then Shown(q.strName) else Returned(p, f)
  }

  lemma ShownStored(p: ProxyInfo, f: Fields)
    requires Complete(p, f) && Settled(f.name)
    ensures Shown(Stored(p, f).strName) == Returned(p, f)
  {
    hide Shown, Settled;
    if p.nameModified {
      ShownJoined(f.name, f.port.value % 0x1_0000);
    }
  }

  /** What is shown of a protocol can be stored for it without a change to what is shown. */
  lemma ShownAgain(p: ProxyInfo)
    requires Complete(p, Shown(p.strName))
    ensures Shown(Stored(p, Shown(p.strName)).strName) == Shown(p.strName)
  {
    hide Crack, Put, Settled, Joined;
    if p.nameModified {
      var c := Crack(p.strName);
      PutSettles(c.name, c.port);
      PutPort(c.name, c.port);
      ShownStored(p, Shown(p.strName));
    }
  }

  const BUFFER: nat := 1000

  class ProxyPageDlg {
    var proxies: seq<ProxyInfo>
    var cur: nat
    var changing: bool
    var nameText: string
    var portText: Option<nat>

    /** The name field always holds a name its handler would leave alone. */
    ghost predicate Valid()
      reads this
    {
      && Settled(nameText) && (proxies == [] || cur < |proxies|) && !changing
      && forall k :: 0 <= k < |proxies| ==> |proxies[k].strName| < BUFFER
    }

    ghost function View(): Fields
      reads this
    {
      Fields(nameText, portText)
    }

    constructor (proxies: seq<ProxyInfo>)
      requires forall k :: 0 <= k < |proxies| ==> |proxies[k].strName| < BUFFER
      ensures Valid() && this.proxies == proxies && cur == 0
      ensures View() == if proxies == [] then Fields("", None) else Shown(proxies[0].strName)
    {
      this.proxies, cur, changing, nameText, portText := proxies, 0, true, "", None;
      new;
      UpdatePS();
      changing := false;
    }

    method CrackProxyName(text: string) returns (ok: bool, name: string, port: nat)
      requires |text| < BUFFER
      ensures ok == Crack(text).port.Some? && name == Crack(text).name
      ensures ok ==> port == Crack(text).port.value
    {
      port := 0;
      var pszPort := LastColon(text);
      if FirstColonBefore(text, '/') == pszPort || FirstColonBefore(text, '\\') == pszPort {
        pszPort := -1;
      }
      if pszPort == -1 {
        return false, text, port;
      }
      name := text[..pszPort];
      if pszPort + 1 == |text| {
        return false, name, port;
      }
      return true, name, ToInt(text[pszPort + 1..]) % 0x1_0000;
    }

    /** A text put into the name field, by the user or by the page: the field notifies its handler. */
    method SetNameText(text: string)
      requires |text| < BUFFER && (changing || cur < |proxies|)
      modifies this`nameText, this`portText, this`proxies
      ensures View() == Put(text, old(portText)) && Settled(nameText)
      ensures proxies == if changing then old(proxies) else old(proxies)[cur := old(proxies)[cur].(nameModified := true)]
      decreases |text|, 1
    {
      nameText := text;
      OnChangeProxyname();
    }

    method OnChangeProxyname()
      requires |nameText| < BUFFER && (changing || cur < |proxies|)
      modifies this`nameText, this`portText, this`proxies
      ensures View() == Put(old(nameText), old(portText)) && Settled(nameText)
      ensures proxies == if changing then old(proxies) else old(proxies)[cur := old(proxies)[cur].(nameModified := true)]
      decreases |nameText|, 0
    {
      if !changing {
        proxies := proxies[cur := proxies[cur].(nameModified := true)];
      }
      var str := nameText;
      PutSettles(str, portText);
      if str == "http:" || str == "ftp:" || str == "https:" {
        return;
      }
      var ok, name, port := CrackProxyName(str);
      if ok {
        portText := Some(port);
      }
      if name != str {
        SetNameText(name);
      }
    }

    method UpdatePS()
      requires changing && (proxies != [] ==> cur < |proxies| && |proxies[cur].strName| < BUFFER)
      modifies this`nameText, this`portText, this`proxies
      ensures proxies == old(proxies)
      ensures if proxies == [] then View() == old(View()) else View() == Shown(proxies[cur].strName) && Settled(nameText)
    {
      if |proxies| == 0 {
        return;
      }
      var ok, name, port := CrackProxyName(proxies[cur].strName);
      if ok {
        portText := Some(port);
      } else {
        portText := None;
      }
      SetNameText(name);
    }

    /** The user types into the fields. */
    method TypeName(text: string)
      requires Valid() && proxies != [] && |text| < BUFFER
      modifies this`nameText, this`portText, this`proxies
      ensures Valid() && View() == Put(text, old(portText))
      ensures proxies == old(proxies)[cur := old(proxies)[cur].(nameModified := true)]
    {
      SetNameText(text);
    }

    method TypePort(port: Option<nat>)
      requires Valid()
      modifies this`portText
      ensures Valid() && portText == port
    {
      portText := port;
    }

    /** Stores the fields of the current protocol and shows those of another one. */
    method ReadPS(next: nat, authOk: bool) returns (ok: bool)
      requires Valid() && next < |proxies| && |nameText| + 6 < BUFFER
      modifies this
      ensures Valid()
      ensures ok == (authOk && (old(proxies[cur].nameModified) ==> old(nameText != "" && portText.Some?)))
      ensures proxies == old(proxies)[old(cur) := Stored(old(proxies[cur]), old(View()))]
      ensures old(proxies[cur].nameModified && nameText != "" && portText.None?) ==>
        proxies[old(cur)].strName == old(nameText)
      ensures ok ==> cur == next && View() == Shown(proxies[next].strName)
      ensures !ok ==> cur == old(cur) && View() == old(View())
    {
      changing := true;
      var info := proxies[cur];
      if info.nameModified {
        var str := nameText;
        if |str| == 0 {
          changing := false;
          return false;
        }
        proxies := proxies[cur := info.(strName := str)];
        if portText.None? {
          changing := false;
          return false;
        } else {
          var u := portText.value % 0x1_0000;
          proxies := proxies[cur := info.(strName := str + ":" + Decimal(u))];
        }
      }
      if !authOk {
        changing := false;
        return false;
      }
      cur := next;
      UpdatePS();
      changing := false;
      return true;
    }

    /** Going to another protocol and back. */
    method SwitchAndBack(other: nat) returns (there: bool, back: bool)
      requires Valid() && other < |proxies| && other != cur && |nameText| + 6 < BUFFER
      requires |Shown(proxies[other].strName).name| + 6 < BUFFER
      modifies this
      ensures Valid()
      ensures cur == if there && !back then other else old(cur)
      ensures View() == AfterSwitches(old(proxies)[old(cur)], old(View()), old(proxies)[other], there, back)
      ensures there == Complete(old(proxies)[old(cur)], old(View()))
      ensures back == (there && Complete(old(proxies)[other], Shown(old(proxies)[other].strName)))
      ensures back ==> |proxies| > other && Shown(proxies[other].strName) == Shown(old(proxies)[other].strName)
    {
      hide Shown, Settled, Stored, Returned;
      var first := cur;
      ghost var p, f, q := proxies[cur], View(), proxies[other];
      there := ReadPS(other, true);
      back := false;
      if there {
        assert proxies[other] == q && proxies[first] == Stored(p, f);
        back := ReadPS(first, true);
        if back {
          ShownStored(p, f);
          ShownAgain(q);
        }
      }
    }
  }
}
