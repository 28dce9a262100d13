/** The comma-separated option string: joining with escapes, and the splitter that works in place
    (fuse/fuse_opt.c:112-134, 289-315). */
module OptString {
  const NUL: char := '\0'

  predicate CString(s: string) {
    NUL !in s
  }

  // ----- joining

  predicate Special(c: char) {
    c == ',' || c == '\\'
  }

  function Escape(s: string): string {
    if s == "" then "" else (if Special(s[0]) then ['\\', s[0]] else [s[0]]) + Escape(s[1..])
  }

  /** A backslash goes in front of each comma and each backslash, and nothing else is changed. */
  lemma {:induction false} EscapeIs(s: string, t: string)
    ensures Escape(s + t) == Escape(s) + Escape(t)
    ensures Escape(",") == "\\," && Escape("\\") == "\\\\"
  {
    if s == "" {
      assert s + t == t;
    } else {
      assert (s + t)[1..] == s[1..] + t;
      EscapeIs(s[1..], t);
    }
  }

  lemma {:induction false} EscapeOfPlain(s: string)
    requires ',' !in s && '\\' !in s
    ensures Escape(s) == s
  {
    if s != "" { EscapeOfPlain(s[1..]); }
  }

  /** One more option behind those of an option string. */
  function Append(opts: string, opt: string, esc: bool): string {
    (if opts != "" then opts + "," else "") + if esc then Escape(opt) else opt
  }

  function Join(opts: seq<string>): string {
    if opts == [] then "" else Append(Join(opts[..|opts| - 1]), opts[|opts| - 1], true)
  }

  lemma {:induction false} EscapeMore(s: string, c: char)
    ensures Escape(s + [c]) == Escape(s) + if Special(c) then ['\\', c] else [c]
  {
    if s == "" {
      assert s + [c] == [c];
    } else {
      assert (s + [c])[1..] == s[1..] + [c];
      EscapeMore(s[1..], c);
    }
  }

  /** add_opt_common: what it writes fits what it allocates. */
  method AddOptCommon(opts: string, opt: string, esc: bool) returns (r: string)
    requires CString(opts) && CString(opt)
    ensures r == Append(opts, opt, esc)
    ensures r == (if opts == "" then "" else opts + ",") + (if esc then Escape(opt) else opt)
  {
    var oldlen := |opts|;
    var buf := new char[oldlen + 1 + |opt| * 2 + 1](i requires 0 <= i => if i < oldlen then opts[i] else NUL);
    var d := 0;
    assert buf[..oldlen] == opts;
    if oldlen > 0 {
      d := oldlen;
      d := Put(buf, d, ',');
    }
    assert buf[..d] == if opts != "" then opts + "," else "";
    d := Write(buf, d, opt, esc);
    r := buf[..d];
    d := Put(buf, d, NUL);
  }

  /** The loop of add_opt_common. */
  method Write(buf: array<char>, start: nat, opt: string, esc: bool) returns (d: nat)
    requires start + 2 * |opt| < buf.Length
    modifies buf
    ensures d < buf.Length && buf[..d] == old(buf[..start]) + if esc then Escape(opt) else opt
  {
    d := start;
    assert Escape(opt[..0]) == "" == opt[..0];
    hide Escape;
    ghost var done := "";
    for i := 0 to |opt|
      invariant |done| <= 2 * i && d <= start + 2 * i
      invariant buf[..d] == old(buf[..start]) + done
      invariant done == if esc then Escape(opt[..i]) else opt[..i]
    {
      Written(opt, i, esc);
      if esc && (opt[i] == ',' || opt[i] == '\\') {
        d := Put(buf, d, '\\');
        done := done + ['\\'];
      }
      d := Put(buf, d, opt[i]);
      done := done + [opt[i]];
    }
    assert opt[..|opt|] == opt;
  }

  lemma Written(opt: string, i: nat, esc: bool)
    requires i < |opt|
    ensures if esc then
              Escape(opt[..i + 1]) ==
              if Special(opt[i]) then Escape(opt[..i]) + ['\\'] + [opt[i]] else Escape(opt[..i]) + [opt[i]]
            else opt[..i + 1] == opt[..i] + [opt[i]]
  {
    assert opt[..i + 1] == opt[..i] + [opt[i]];
    EscapeMore(opt[..i], opt[i]);
    assert ['\\', opt[i]] == ['\\'] + [opt[i]];
  }

  /** *d++ = c */
  method Put(buf: array<char>, d: nat, c: char) returns (d': nat)
    requires d < buf.Length
    modifies buf
    ensures d' == d + 1 && buf[..d'] == old(buf[..d]) + [c]
    ensures forall j :: d' <= j < buf.Length ==> buf[j] == old(buf[j])
  {
    buf[d] := c;
    d' := d + 1;
  }

  lemma {:induction false} EscapeClean(s: string)
    requires CString(s)
    ensures CString(Escape(s))
    ensures Escape(s) == "" <==> s == ""
  {
    if s != "" { EscapeClean(s[1..]); }
  }

  // ----- splitting

  /** The options of s, of which cur has been seen of the first. */
  function SplitOn(s: string, cur: string): seq<string> {
    if s == "" then [cur]
    else if s[0] == ',' then [cur] + SplitOn(s[1..], "")
    else if s[0] == '\\' && |s| > 1 then SplitOn(s[2..], cur + [s[1]])
    else SplitOn(s[1..], cur + [s[0]])
  }

  function Split(s: string): seq<string> {
    SplitOn(s, "")
  }

  lemma SplitStep(text: string, s: nat, cur: string)
    requires s <= |text|
    ensures SplitOn(text[s..], cur) ==
            if s == |text| then [cur]
            else if text[s] == ',' then [cur] + SplitOn(text[s + 1..], "")
            else if text[s] == '\\' && s + 1 < |text| then SplitOn(text[s + 2..], cur + [text[s + 1]])
            else SplitOn(text[s + 1..], cur + [text[s]])
  {}

  /** process_real_option_group: parts are the options it processes. They are put together in the same buffer, whose
      part behind the read cursor is not changed. */
  method SplitInPlace(opts: array<char>) returns (parts: seq<string>)
    requires opts.Length > 0 && opts[opts.Length - 1] == NUL && CString(opts[..opts.Length - 1])
    modifies opts
    ensures parts == old(Split(opts[..opts.Length - 1]))
  {
    var s, d, end := 0, 0, false;
    ghost var n := opts.Length - 1;
    ghost var text := opts[..n];
    assert text[0..] == text;
    parts := [];
    while !end
      invariant 0 <= d <= s <= n + 1
      invariant end || s <= n
      invariant forall j :: s <= j <= n ==> opts[j] == old(opts[j])
      invariant if end then parts == Split(text) else parts + SplitOn(text[s..], opts[..d]) == Split(text)
      decreases !end, n - s
    {
      SplitStep(text, s, opts[..d]);
      if opts[s] == NUL {
        end := true;
      }
      if opts[s] == ',' || end {
        parts := parts + [opts[..d]];
        opts[d] := NUL;
        d := 0;
      } else {
        if opts[s] == '\\' && opts[s + 1] != NUL {
          s := s + 1;
        }
        d := Put(opts, d, opts[s]);
      }
      s := s + 1;
    }
  }

  /** What splitting comes to, for any text: commas separate, a backslash in front of a character stands for that
      character, and everything else for itself, a backslash at the end too. */
  lemma {:induction false} SplitIs(plain: string, c: char, rest: string, cur: string)
    requires ',' !in plain && '\\' !in plain
    ensures SplitOn(plain, cur) == [cur + plain]
    ensures SplitOn(plain + "," + rest, cur) == [cur + plain] + Split(rest)
    ensures SplitOn(plain + ['\\', c] + rest, cur) == SplitOn(rest, cur + plain + [c])
    ensures SplitOn(plain + "\\", cur) == [cur + plain + "\\"]
    decreases |plain|
  {
    if plain == "" {
      assert cur + plain == cur;
      assert plain + "," + rest == "," + rest && ("," + rest)[1..] == rest;
      var s := plain + ['\\', c] + rest;
      assert s[0] == '\\' && s[1] == c && s[2..] == rest;
      assert plain + "\\" == "\\" && "\\"[1..] == "";
    } else {
      var d := plain[0];
      SplitIs(plain[1..], c, rest, cur + [d]);
      assert cur + [d] + plain[1..] == cur + plain;
      assert (plain + "," + rest)[1..] == plain[1..] + "," + rest;
      assert (plain + ['\\', c] + rest)[1..] == plain[1..] + ['\\', c] + rest;
      assert (plain + "\\")[1..] == plain[1..] + "\\";
    }
  }

  // ----- splitting undoes joining

  lemma {:induction false} SplitEscaped(s: string, cur: string, rest: string)
    ensures SplitOn(Escape(s), cur) == [cur + s]
    ensures SplitOn(Escape(s) + "," + rest, cur) == [cur + s] + Split(rest)
    decreases s
  {
    var e := Escape(s);
    if s == "" {
      assert cur + s == cur;
      assert e + "," + rest == "," + rest && ("," + rest)[1..] == rest;
    } else {
      var c, n := s[0], if Special(s[0]) then 2 else 1;
      SplitEscaped(s[1..], cur + [c], rest);
      assert cur + [c] + s[1..] == cur + s;
      assert e[n..] == Escape(s[1..]) && (e + "," + rest)[n..] == Escape(s[1..]) + "," + rest;
    }
  }

  /** What joins two option strings splits them. */
  lemma {:induction false} SplitJoined(opts: seq<string>, rest: string)
    ensures Split(Join(opts) + "," + rest) == Split(Join(opts)) + Split(rest)
    decreases |opts|
  {
    if opts == [] {
      assert Join(opts) + "," + rest == "," + rest && ("," + rest)[1..] == rest;
    } else {
      var front, last := opts[..|opts| - 1], opts[|opts| - 1];
      SplitEscaped(last, "", rest);
      if Join(front) != "" {
        SplitJoined(front, Escape(last));
        SplitJoined(front, Escape(last) + "," + rest);
        assert Join(opts) == Join(front) + "," + Escape(last);
        assert Join(opts) + "," + rest == Join(front) + "," + (Escape(last) + "," + rest);
      } else {
        assert Join(opts) == Escape(last);
      }
    }
  }

  /** The options but for the empty ones in front, of which the last stays if there are no others. */
  function Canon(opts: seq<string>): seq<string> {
    if |opts| > 1 && opts[0] == "" then Canon(opts[1..]) else opts
  }

  ghost predicate AllEmpty(opts: seq<string>) {
    forall k :: 0 <= k < |opts| ==> opts[k] == ""
  }

  lemma {:induction false} JoinEmpty(opts: seq<string>)
    ensures Join(opts) == "" <==> AllEmpty(opts)
  {
    if opts != [] {
      var front, last := opts[..|opts| - 1], opts[|opts| - 1];
      JoinEmpty(front);
      EscapeEmpty(last);
      AppendText(Join(front), last);
      assert AllEmpty(opts) <==> AllEmpty(front) && last == "" by { assert opts == front + [last]; }
      hide AllEmpty;
    }
  }

  lemma AppendText(opts: string, opt: string)
    ensures Append(opts, opt, true) == if opts == "" then Escape(opt) else opts + "," + Escape(opt)
    ensures opts != "" ==> Append(opts, opt, true) != ""
  {}

  lemma EscapeEmpty(s: string)
    ensures Escape(s) == "" <==> s == ""
  {}

  lemma {:induction false} CanonLast(opts: seq<string>)
    requires |opts| > 1
    ensures var front, last := opts[..|opts| - 1], opts[|opts| - 1];
            Canon(opts) == if AllEmpty(front) then [last] else Canon(front) + [last]
    decreases |opts|
  {
    var front, last, rest := opts[..|opts| - 1], opts[|opts| - 1], opts[1..];
    assert front[0] == opts[0] && opts == front + [last];
    if opts[0] == "" {
      assert Canon(opts) == Canon(rest);
      if |opts| == 2 {
        assert rest == [last] && front == [""];
      } else {
        assert rest[..|rest| - 1] == front[1..] && Canon(front) == Canon(front[1..]);
        assert AllEmpty(front) <==> AllEmpty(front[1..]) by { assert front == [""] + front[1..]; }
        CanonLast(rest);
      }
    }
  }

  lemma {:induction false} SplitOfJoin(opts: seq<string>)
    requires opts != []
    ensures Split(Join(opts)) == Canon(opts)
    decreases |opts|
  {
    var front, last := opts[..|opts| - 1], opts[|opts| - 1];
    SplitEscaped(last, "", "");
    assert "" + last == last;
    AppendText(Join(front), last);
    if |opts| == 1 {
      assert opts == [last] && front == [];
    } else {
      CanonLast(opts);
      JoinEmpty(front);
      if Join(front) != "" {
        SplitJoined(front, Escape(last));
        SplitOfJoin(front);
        assert Join(opts) == Join(front) + "," + Escape(last);
      }
    }
  }

  /** Splitting undoes joining, just when there is one option or the first is not empty. */
  lemma SplitUndoesJoin(opts: seq<string>)
    ensures Split(Join(opts)) == opts <==> |opts| == 1 || (opts != [] && opts[0] != "")
  {
    if opts != [] {
      SplitOfJoin(opts);
      CanonKeeps(opts);
    }
  }

  lemma {:induction false} CanonKeeps(opts: seq<string>)
    requires opts != []
    ensures Canon(opts) != [] && |Canon(opts)| <= |opts|
    ensures Canon(opts) == opts <==> |opts| == 1 || opts[0] != ""
    ensures Join(Canon(opts)) == Join(opts)
    ensures forall o :: o in Canon(opts) ==> o in opts
    decreases |opts|
  {
    if |opts| > 1 && opts[0] == "" {
      CanonKeeps(opts[1..]);
      JoinWithoutFirst(opts);
    }
  }

  lemma {:induction false} JoinWithoutFirst(opts: seq<string>)
    requires |opts| > 1 && opts[0] == ""
    ensures Join(opts[1..]) == Join(opts)
    decreases |opts|
  {
    var front := opts[..|opts| - 1];
    if |opts| == 2 {
      assert front == [""] && opts[1..][..0] == [];
      assert Join([""]) == "" by { JoinEmpty([""]); }
    } else {
      JoinWithoutFirst(front);
      assert opts[1..][..|opts| - 2] == front[1..];
    }
  }

  lemma {:induction false} SplitClean(s: string, cur: string)
    requires CString(s) && CString(cur)
    ensures forall k :: 0 <= k < |SplitOn(s, cur)| ==> CString(SplitOn(s, cur)[k])
    decreases |s|
  {
    if s != "" {
      if s[0] == ',' {
        SplitClean(s[1..], "");
      } else if s[0] == '\\' && |s| > 1 {
        SplitClean(s[2..], cur + [s[1]]);
      } else {
        SplitClean(s[1..], cur + [s[0]]);
      }
    }
  }

  lemma {:induction false} JoinClean(opts: seq<string>)
    requires forall k :: 0 <= k < |opts| ==> CString(opts[k])
    ensures CString(Join(opts))
  {
    if opts != [] {
      JoinClean(opts[..|opts| - 1]);
      EscapeClean(opts[|opts| - 1]);
    }
  }
}
