/** The walk over IPv4 options, as section 3.1 of RFC 791 lays them out. */
module IpOptions {
  import opened InternetChecksum

  const LSRR: Byte := 0x83
  const SSRR: Byte := 0x89

  predicate SourceRoute(t: Byte) { t == LSRR || t == SSRR }

  function Rest(d: seq<Byte>, n: nat): seq<Byte> { if n <= |d| then d[n..] else [] }

  /** True if the options hold a source route or cannot be walked. */
  predicate Skip(opts: seq<Byte>)
    decreases |opts|
  {
    if opts == [] || opts[0] == 0 then false
    else if opts[0] == 1 then Skip(opts[1..])
    else if SourceRoute(opts[0]) then true
    else if |opts| < 2 then false
    else if opts[1] < 2 then true
    else Skip(Rest(opts, opts[1]))
  }

  method OptionsSkip(opts: seq<Byte>) returns (skip: bool)
    ensures skip == Skip(opts)
  {
    var i := 0;
    while i < |opts|
      invariant Skip(Rest(opts, i)) == Skip(opts)
      decreases |opts| - i
    {
      ghost var rest := opts[i..];
      var t := opts[i];
      if t == 0 { break; }
      if t == 1 {
        assert rest[1..] == Rest(opts, i + 1);
        i := i + 1;
        continue;
      }
      if SourceRoute(t) { return true; }
      if i + 1 >= |opts| { break; }
      var n := opts[i + 1];
      if n < 2 { return true; }
      assert Rest(rest, n) == Rest(opts, i + n);
      i := i + n;
    }
    return false;
  }

  // ------------------------------------------------------ against a written list

  /** One option of a well-formed list: no-operation, or type, length, data. */
  datatype Opt = Nop | Tlv(kind: Byte, data: seq<Byte>)

  predicate WellFormed(o: Opt) { o.Tlv? ==> o.kind > 1 && |o.data| <= 253 }

  function Encode(o: Opt): seq<Byte>
    requires WellFormed(o)
  {
    match o
    case Nop => [1]
    case Tlv(kind, data) => [kind, |data| + 2] + data
  }

  function EncodeAll(list: seq<Opt>): seq<Byte>
    requires forall o :: o in list ==> WellFormed(o)
  {
    if list == [] then [] else Encode(list[0]) + EncodeAll(list[1..])
  }

  predicate IsRoute(o: Opt) { o.Tlv? && SourceRoute(o.kind) }

  predicate HasSourceRoute(list: seq<Opt>) { exists o :: o in list && IsRoute(o) }

  /** What may follow the list: nothing, or an end-of-list byte and anything. */
  predicate Ends(tail: seq<Byte>) { tail == [] || tail[0] == 0 }

  lemma OneOption(o: Opt, rest: seq<Byte>)
    requires WellFormed(o)
    ensures Skip(Encode(o) + rest) <==> IsRoute(o) || Skip(rest)
  {
    var all := Encode(o) + rest;
    assert all[|Encode(o)|..] == rest;
    if o.Tlv? && !IsRoute(o) { assert Rest(all, all[1]) == rest; }
  }

  /** A source route anywhere in the list, or whatever the walk makes of the rest. */
  lemma {:induction false} WalkWithRest(list: seq<Opt>, rest: seq<Byte>)
    requires forall o :: o in list ==> WellFormed(o)
    ensures Skip(EncodeAll(list) + rest) <==> HasSourceRoute(list) || Skip(rest)
  {
    if list == [] {
      assert EncodeAll(list) + rest == rest;
    } else {
      var more := list[1..];
      assert EncodeAll(list) + rest == Encode(list[0]) + (EncodeAll(more) + rest);
      OneOption(list[0], EncodeAll(more) + rest);
      WalkWithRest(more, rest);
      assert forall o :: o in list <==> o == list[0] || o in more;
    }
  }

  /** On any well-formed list, ended by EOL or by the header's end, the walk is true
      exactly when a source route comes before the end; option data and whatever
      follows EOL are never taken for a type. */
  lemma {:induction false} WalkFindsSourceRoutes(list: seq<Opt>, tail: seq<Byte>)
    requires forall o :: o in list ==> WellFormed(o)
    requires Ends(tail)
    ensures Skip(EncodeAll(list) + tail) <==> HasSourceRoute(list)
  {
    WalkWithRest(list, tail);
  }

  /** Where reading options stops short: a type with no length behind it, a length that
      does not cover itself, or one that runs past the header's end. */
  predicate Broken(rest: seq<Byte>) {
    |rest| > 0 && rest[0] > 1 && (|rest| == 1 || rest[1] < 2 || rest[1] > |rest|)
  }

  /** Any bytes at all are a well-formed list and then its end, or an option that cannot
      be read. */
  lemma {:induction false} Reads(opts: seq<Byte>) returns (list: seq<Opt>, rest: seq<Byte>)
    ensures forall o :: o in list ==> WellFormed(o)
    ensures opts == EncodeAll(list) + rest
    ensures Ends(rest) || Broken(rest)
    decreases |opts|
  {
    hide EncodeAll;
    if Ends(opts) || Broken(opts) {
      list, rest := [], opts;
      EncodeOne(Nop, []);
      assert EncodeAll([]) + opts == opts;
    } else {
      var n, o := 1, Nop;
      if opts[0] != 1 { n, o := opts[1], Tlv(opts[0], opts[2..opts[1]]); }
      assert opts[..n] == Encode(o);
      var more;
      more, rest := Reads(opts[n..]);
      list := [o] + more;
      EncodeOne(o, more);
      assert opts == opts[..n] + (EncodeAll(more) + rest) == opts[..n] + EncodeAll(more) + rest;
    }
  }

  lemma EncodeOne(o: Opt, more: seq<Opt>)
    requires WellFormed(o) && forall x :: x in more ==> WellFormed(x)
    ensures EncodeAll([o] + more) == Encode(o) + EncodeAll(more)
    ensures EncodeAll([]) == []
  {
    assert ([o] + more)[1..] == more;
  }

  /** The walk on any bytes, however they read: true exactly for a source route among the
      options that can be read, for one as the type of an option that cannot, and for a
      length below two. */
  lemma WalkExactly(list: seq<Opt>, rest: seq<Byte>)
    requires forall o :: o in list ==> WellFormed(o)
    requires Ends(rest) || Broken(rest)
    ensures Skip(EncodeAll(list) + rest) <==>
      || (exists data, kind: Byte :: Tlv(kind, data) in list && (kind == 0x83 || kind == 0x89))
      || (Broken(rest) && (rest[0] == 0x83 || rest[0] == 0x89 || (|rest| > 1 && rest[1] < 2)))
  {
    hide EncodeAll;
    WalkWithRest(list, rest);
    if HasSourceRoute(list) {
      var o :| o in list && IsRoute(o);
      assert o == Tlv(o.kind, o.data);
    }
    forall data, kind: Byte | Tlv(kind, data) in list && (kind == 0x83 || kind == 0x89)
      ensures HasSourceRoute(list)
    {
      assert IsRoute(Tlv(kind, data));
    }
  }
}
