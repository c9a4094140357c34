/** The order in which `bind_ports` of `read_config.py` visits connections: by object name,
    port name and index of the one end, then of the other. */
module PortOrder {

  /** A numbered slot of a port: `object.port[index]`. */
  datatype PortRef = PortRef(object_: string, port: string, index: int)

  datatype Connection = Connection(from: PortRef, to: PortRef)

  predicate StringLeq(a: string, b: string) {
    a == [] || (b != [] && (a[0] < b[0] || (a[0] == b[0] && StringLeq(a[1..], b[1..]))))
  }

  predicate PortLeq(p: PortRef, q: PortRef) {
    if p.object_ != q.object_ then StringLeq(p.object_, q.object_)
    else if p.port != q.port then StringLeq(p.port, q.port)
    else p.index <= q.index
  }

  predicate ConnectionLeq(c: Connection, d: Connection) {
    if c.from != d.from then PortLeq(c.from, d.from) else PortLeq(c.to, d.to)
  }

  // ----- The order of a dictionary -----

  /** `a` and `b` agree before position `k` and `a` has the smaller character there. */
  ghost predicate DiffersAt(a: string, b: string, k: int) {
    0 <= k < |a| && k < |b| && a[..k] == b[..k] && a[k] < b[k]
  }

  /** `a` is a proper beginning of `b`, or smaller at the first difference. */
  ghost predicate Before(a: string, b: string) { (a <= b && a != b) || exists k :: DiffersAt(a, b, k) }

  /** By object name, then port name, then index. */
  ghost predicate PortBefore(p: PortRef, q: PortRef) {
    || Before(p.object_, q.object_)
    || (p.object_ == q.object_ && Before(p.port, q.port))
    || (p.object_ == q.object_ && p.port == q.port && p.index < q.index)
  }

  ghost predicate ConnectionBefore(c: Connection, d: Connection) {
    PortBefore(c.from, d.from) || (c.from == d.from && PortBefore(c.to, d.to))
  }

  lemma DiffersLater(a: string, b: string, k: int)
    requires a != [] && b != [] && a[0] == b[0]
    ensures DiffersAt(a[1..], b[1..], k) <==> k >= 0 && DiffersAt(a, b, k + 1)
  {
    if 0 <= k < |a| - 1 && k < |b| - 1 {
      assert a[..k + 1] == [a[0]] + a[1..][..k] && b[..k + 1] == [b[0]] + b[1..][..k];
      if a[..k + 1] == b[..k + 1] {
        assert a[1..][..k] == a[..k + 1][1..] && b[1..][..k] == b[..k + 1][1..];
      }
    }
  }

  lemma BeforeRest(a: string, b: string)
    requires a != [] && b != [] && a[0] == b[0]
    ensures Before(a, b) <==> Before(a[1..], b[1..])
  {
    assert a == [a[0]] + a[1..] && b == [b[0]] + b[1..];
    assert a <= b <==> a[1..] <= b[1..];
    forall k ensures DiffersAt(a[1..], b[1..], k) <==> k >= 0 && DiffersAt(a, b, k + 1) { DiffersLater(a, b, k); }
    if k :| DiffersAt(a, b, k) { assert k > 0 && DiffersAt(a[1..], b[1..], k - 1); }
    if k :| DiffersAt(a[1..], b[1..], k) { assert DiffersAt(a, b, k + 1); }
  }

  lemma {:induction false} StringLeqIff(a: string, b: string)
    ensures StringLeq(a, b) <==> a == b || Before(a, b)
    decreases |a|
  {
    if a != [] && b != [] {
      if a[0] == b[0] {
        StringLeqIff(a[1..], b[1..]);
        BeforeRest(a, b);
        assert a == [a[0]] + a[1..] && b == [b[0]] + b[1..];
      } else {
        FirstDiffers(a, b);
      }
    }
  }

  lemma FirstDiffers(a: string, b: string)
    requires a != [] && b != [] && a[0] != b[0]
    ensures Before(a, b) <==> a[0] < b[0]
  {
    if a[0] < b[0] { assert DiffersAt(a, b, 0); }
    forall k | 0 < k < |a| && k < |b| ensures a[..k] != b[..k] {
      assert a[..k][0] == a[0] && b[..k][0] == b[0];
    }
  }

  lemma PortLeqIff(p: PortRef, q: PortRef)
    ensures PortLeq(p, q) <==> p == q || PortBefore(p, q)
  {
    hide StringLeq, Before;
    StringLeqIff(p.object_, q.object_);
    StringLeqIff(p.port, q.port);
    NotBeforeItself(p.object_);
    NotBeforeItself(p.port);
  }

  lemma NotBeforeItself(a: string)
    ensures !Before(a, a)
  {
  }

  lemma ConnectionLeqIff(c: Connection, d: Connection)
    ensures ConnectionLeq(c, d) <==> c == d || ConnectionBefore(c, d)
  {
    hide PortLeq, Before;
    PortLeqIff(c.from, d.from);
    PortLeqIff(c.to, d.to);
    NotBeforeItself(c.from.object_);
    NotBeforeItself(c.from.port);
  }

  lemma ConnectionBeforeIff(c: Connection, d: Connection)
    ensures ConnectionBefore(c, d) <==> ConnectionLeq(c, d) && c != d
  {
    hide PortLeq, Before;
    ConnectionLeqIff(c, d);
    NotBeforeItself(c.from.object_);
    NotBeforeItself(c.from.port);
    NotBeforeItself(c.to.object_);
    NotBeforeItself(c.to.port);
  }

  // ----- A total order -----

  lemma {:induction false} StringTotal(a: string, b: string)
    ensures StringLeq(a, b) || StringLeq(b, a)
    ensures StringLeq(a, b) && StringLeq(b, a) ==> a == b
    decreases |a|
  {
    if a != [] && b != [] {
      StringTotal(a[1..], b[1..]);
      assert a == [a[0]] + a[1..] && b == [b[0]] + b[1..];
    }
  }

  lemma {:induction false} StringTransitive(a: string, b: string, c: string)
    requires StringLeq(a, b) && StringLeq(b, c)
    ensures StringLeq(a, c)
    decreases |a|
  {
    if a != [] && a[0] == b[0] == c[0] { StringTransitive(a[1..], b[1..], c[1..]); }
  }

  lemma PortTotal(p: PortRef, q: PortRef)
    ensures PortLeq(p, q) || PortLeq(q, p)
    ensures PortLeq(p, q) && PortLeq(q, p) ==> p == q
  {
    StringTotal(p.object_, q.object_);
    StringTotal(p.port, q.port);
  }

  lemma PortTransitive(p: PortRef, q: PortRef, r: PortRef)
    requires PortLeq(p, q) && PortLeq(q, r)
    ensures PortLeq(p, r)
  {
    if p.object_ != q.object_ && q.object_ != r.object_ {
      StringTransitive(p.object_, q.object_, r.object_);
      StringTotal(p.object_, q.object_);
    } else if p.object_ == q.object_ == r.object_ && p.port != q.port && q.port != r.port {
      StringTransitive(p.port, q.port, r.port);
      StringTotal(p.port, q.port);
    }
  }

  lemma ConnectionTotal(c: Connection, d: Connection)
    ensures ConnectionLeq(c, d) || ConnectionLeq(d, c)
    ensures ConnectionLeq(c, d) && ConnectionLeq(d, c) ==> c == d
  {
    PortTotal(c.from, d.from);
    PortTotal(c.to, d.to);
  }

  lemma ConnectionTransitive(c: Connection, d: Connection, e: Connection)
    requires ConnectionLeq(c, d) && ConnectionLeq(d, e)
    ensures ConnectionLeq(c, e)
  {
    if c.from != d.from && d.from != e.from {
      PortTransitive(c.from, d.from, e.from);
      PortTotal(c.from, d.from);
    } else if c.from == d.from == e.from {
      PortTransitive(c.to, d.to, e.to);
    }
  }

  // ----- Sorting -----

  ghost predicate Sorted(s: seq<Connection>) {
    forall i, j :: 0 <= i < j < |s| ==> ConnectionLeq(s[i], s[j])
  }

  function Insert(s: seq<Connection>, c: Connection): seq<Connection> {
    if s == [] || ConnectionLeq(c, s[0]) then [c] + s else [s[0]] + Insert(s[1..], c)
  }

  function Sort(s: seq<Connection>): seq<Connection> {
    if s == [] then [] else Insert(Sort(s[1..]), s[0])
  }

  lemma {:induction false} InsertSorts(s: seq<Connection>, c: Connection)
    requires Sorted(s)
    ensures Sorted(Insert(s, c)) && multiset(Insert(s, c)) == multiset(s) + multiset{c}
    decreases |s|
  {
    hide ConnectionLeq;
    if s != [] && !ConnectionLeq(c, s[0]) {
      assert s == [s[0]] + s[1..];
      InsertSorts(s[1..], c);
      ConnectionTotal(c, s[0]);
      var t := Insert(s[1..], c);
      forall j | 0 <= j < |t|
        ensures ConnectionLeq(s[0], t[j])
      {
        assert t[j] in multiset(t);
      }
    } else if s != [] {
      forall j | 0 < j < |s|
        ensures ConnectionLeq(c, s[j])
      {
        ConnectionTransitive(c, s[0], s[j]);
      }
    }
  }

  /** The visiting order is a sorted rearrangement. */
  lemma {:induction false} SortSorts(s: seq<Connection>)
    ensures Sorted(Sort(s)) && multiset(Sort(s)) == multiset(s)
    decreases |s|
  {
    if s != [] {
      SortSorts(s[1..]);
      InsertSorts(Sort(s[1..]), s[0]);
      assert s == [s[0]] + s[1..];
    }
  }

  lemma {:induction false} SortedStays(s: seq<Connection>)
    requires Sorted(s)
    ensures Sort(s) == s
    decreases |s|
  {
    if s != [] {
      SortedStays(s[1..]);
      assert s == [s[0]] + s[1..];
      assert |s| > 1 ==> ConnectionLeq(s[0], s[1]);
    }
  }
}
