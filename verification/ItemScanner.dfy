/**
 bufio.Scanner as the path decoders use it: over a byte slice, with a split function that takes the item its
 first bytes announce without looking whether all of it is there. What is in the scanner's buffer then decides.
 */
module ItemScanner {
  import opened Bytes

  const START_BUF := 4096
  const ITEM_MIN_LEN := 3

  datatype WindowErr = Fine | AtEnd | AdvanceTooFar

  /** The scanner: pending is buf[start:end], token what its last split gave. */
  datatype Window = Window(start: nat, pending: bytes, rest: bytes, err: WindowErr, token: bytes)

  predicate Sound(w: Window) {
    w.start + |w.pending| <= START_BUF && |w.token| <= ITEM_MIN_LEN + 255
  }

  function NewScanner(data: bytes): (w: Window)
    ensures Sound(w)
  {
    Window(0, [], data, Fine, [])
  }

  datatype Scanned = Scanned(more: bool, w: Window) | Panics

  /**
   fileItemScanner and newsPathScanner on at least three pending bytes. The slice may reach past the pending bytes up to
   the end of the buffer, but the scanner then refuses to advance and keeps its last token.
   */
  function CutItem(w: Window): (r: Scanned)
    requires Sound(w) && |w.pending| >= ITEM_MIN_LEN
    ensures r.Scanned? ==> Sound(r.w)
  {
    var advance: nat := ITEM_MIN_LEN + w.pending[2] as nat;
    if advance > START_BUF - w.start then Panics
    else if advance > |w.pending| then Scanned(false, w.(err := AdvanceTooFar))
    else Scanned(true, w.(start := w.start + advance, token := w.pending[..advance], pending := w.pending[advance..]))
  }

  /**
   Shifting the pending bytes to the front of the buffer and reading what fits behind them. The buffer never grows:
   fewer than three bytes do not fill it.
   */
  function Refilled(w: Window): (r: Window)
    requires Sound(w) && |w.pending| < ITEM_MIN_LEN && w.err.Fine?
    ensures Sound(r) && (r.err.Fine? ==> |r.rest| < |w.rest|)
  {
    var full := w.start + |w.pending| == START_BUF;
    var start := if w.start > 0 && (full || w.start > START_BUF / 2) then 0 else w.start;
    var room := START_BUF - start - |w.pending|;
    var n := if |w.rest| < room then |w.rest| else room;
    if w.rest == [] then w.(start := start, err := AtEnd)
    else w.(start := start, pending := w.pending + w.rest[..n], rest := w.rest[n..])
  }

  /** The split function has looked at fewer than three bytes and given no token. */
  function LookedAt(w: Window): (r: Window)
    ensures r.token == [] || r == w
    ensures r == w.(token := r.token)
  {
    if w.pending != [] || !w.err.Fine? then w.(token := []) else w
  }

  /** The next scan; more says whether it has found an item. */
  function NextItem(w: Window): (r: Scanned)
    requires Sound(w)
    ensures r.Scanned? ==> Sound(r.w)
    decreases |w.rest|, if w.err.Fine? then 1 else 0
  {
    if |w.pending| >= ITEM_MIN_LEN then CutItem(w)
    else if w.err.Fine? then NextItem(Refilled(LookedAt(w)))
    else Scanned(false, LookedAt(w).(start := 0, pending := []))
  }

  class PathScanner {
    var w: Window

    constructor (data: bytes)
      ensures w == NewScanner(data)
    {
      w := NewScanner(data);
    }

    /** ok is false where the slice expression of the split function panics. */
    method Scan() returns (ok: bool, more: bool)
      requires Sound(w)
      modifies this
      ensures ok <==> NextItem(old(w)).Scanned?
      ensures ok ==> Scanned(more, w) == NextItem(old(w))
    {
      while true
        invariant Sound(w) && NextItem(w) == NextItem(old(w))
        decreases |w.rest|, if w.err.Fine? then 1 else 0
      {
        if |w.pending| >= ITEM_MIN_LEN {
          var r := CutItem(w);
          if r.Panics? {
            return false, false;
          }
          w := r.w;
          return true, r.more;
        }
        if !w.err.Fine? {
          w := LookedAt(w).(start := 0, pending := []);
          return true, false;
        }
        w := Refilled(LookedAt(w));
      }
    }
  }

  // ---------- Items that are all there ----------

  /** An item of the path format: two bytes, a length, a name. */
  function EncodeItem(name: bytes): bytes {
    [0, 0] + [|name| % 256] + name
  }

  function EncodeItems(names: seq<bytes>): bytes {
    if names == [] then [] else EncodeItem(names[0]) + EncodeItems(names[1..])
  }

  predicate NamesUpTo(names: seq<bytes>, n: nat) {
    forall i :: 0 <= i < |names| ==> |names[i]| <= n
  }

  /**
   No item runs past the end of the buffer that holds its first three bytes: at is where in the buffer the first one
   starts, and an item of which fewer bytes are there starts a new buffer.
   */
  predicate InWindows(names: seq<bytes>, at: nat) {
    names == [] ||
    var len := ITEM_MIN_LEN + |names[0]|;
    if at + len <= START_BUF then InWindows(names[1..], at + len)
    else at > START_BUF - ITEM_MIN_LEN && InWindows(names[1..], len)
  }

  /** Everything fits one buffer, whatever the lengths. */
  lemma {:induction false} OneWindow(names: seq<bytes>, at: nat)
    requires at + |EncodeItems(names)| <= START_BUF
    ensures InWindows(names, at)
  {
    if names != [] {
      OneWindow(names[1..], at + ITEM_MIN_LEN + |names[0]|);
    }
  }

  /** Nothing has gone wrong, and the buffer is full unless it holds all there is, or nothing has been read. */
  predicate Ready(w: Window) {
    && Sound(w) && w.err.Fine?
    && (w.rest == [] || w.start + |w.pending| == START_BUF || (w.start == 0 && w.pending == []))
  }

  lemma AtStart(data: bytes)
    ensures var w := NewScanner(data); Ready(w) && w.start == 0 && w.pending + w.rest == data
  {
  }

  /** The stream is the item and then more. */
  predicate Holds(w: Window, name: bytes, more: bytes) {
    w.pending + w.rest == EncodeItem(name) + more
  }

  /** The window after an item that was found, in the buffer or in the next one. */
  predicate Found(r: Scanned, name: bytes, more: bytes, start: nat) {
    && r.Scanned? && r.more && Ready(r.w)
    && r.w.token == EncodeItem(name) && r.w.pending + r.w.rest == more && r.w.start == start
  }

  lemma CutFirst(w: Window, name: bytes, more: bytes)
    requires Ready(w) && Holds(w, name, more) && |name| <= 255 && |w.pending| >= ITEM_MIN_LEN
    ensures if w.start + ITEM_MIN_LEN + |name| <= START_BUF
            then Found(CutItem(w), name, more, w.start + ITEM_MIN_LEN + |name|)
            else CutItem(w).Panics?
  {
    var len := ITEM_MIN_LEN + |name|;
    var all := w.pending + w.rest;
    assert all[2] == w.pending[2] && all[2] == |name|;
    if w.start + len <= START_BUF {
      assert |w.pending| >= len;
      assert all[..len] == w.pending[..len] && all[..len] == EncodeItem(name);
      assert all[len..] == w.pending[len..] + w.rest && all[len..] == more;
    }
  }

  lemma RefillReady(w: Window)
    requires Ready(w) && |w.pending| < ITEM_MIN_LEN && |w.pending + w.rest| >= ITEM_MIN_LEN
    ensures w.start == 0 || w.start > START_BUF - ITEM_MIN_LEN
    ensures var r := Refilled(LookedAt(w));
            Ready(r) && r.start == 0 && |r.pending| >= ITEM_MIN_LEN && r.pending + r.rest == w.pending + w.rest
  {
    var n := |w.rest| - |Refilled(LookedAt(w)).rest|;
    assert w.pending + w.rest[..n] + w.rest[n..] == w.pending + w.rest;
  }

  /** Scanning for an item that is there: found in the buffer or in the next one, or a panic. */
  lemma ScanFirst(w: Window, name: bytes, more: bytes)
    requires Ready(w) && Holds(w, name, more) && |name| <= 255
    ensures var len := ITEM_MIN_LEN + |name|;
            if w.start + len <= START_BUF then Found(NextItem(w), name, more, w.start + len)
            else if w.start > START_BUF - ITEM_MIN_LEN then Found(NextItem(w), name, more, len)
            else NextItem(w).Panics?
  {
    assert |EncodeItem(name)| == ITEM_MIN_LEN + |name|;
    if |w.pending| >= ITEM_MIN_LEN {
      CutFirst(w, name, more);
    } else {
      RefillReady(w);
      var r := Refilled(LookedAt(w));
      assert NextItem(w) == CutItem(r);
      CutFirst(r, name, more);
    }
  }
}
