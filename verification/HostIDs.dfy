/**
  Tables kept for every window, and the host ids that guests' images are given: each guest numbers its
  images as it likes, the host terminal has one numbering for all.
 */
module HostIDs {

  // ---- tables by window ----------------------------------------------------------------------

  predicate Holds<T>(m: map<string, map<int, T>>, w: string, k: int) {
    w in m && k in m[w]
  }

  function PaneOf<T>(m: map<string, map<int, T>>, w: string): map<int, T> {
    if w in m then m[w] else map[]
  }

  function Stored<T>(m: map<string, map<int, T>>, w: string, k: int, v: T): map<string, map<int, T>> {
    m[w := PaneOf(m, w)[k := v]]
  }

  // ---- ids -----------------------------------------------------------------------------------

  /** Ids are 32 bits wide, and 0 is never one. */
  const ID_LIMIT := 0x1_0000_0000

  function NextID(id: int): int { if id == ID_LIMIT - 1 then 1 else id + 1 }

  /** Counting up goes once through all 32-bit numbers but 0. */
  lemma {:induction false} IDsCount(id: int)
    requires 1 <= id <= 4294967295
    ensures 1 <= NextID(id) <= 4294967295 && (NextID(id) - id) % 4294967295 == 1
    ensures NextID(4294967295) == 1 && (NextID(id) == 1 ==> id == 4294967295)
  {
  }

  type IDs = map<string, map<int, int>>

  /** The host id of every guest image, by window, and the next one to be given. */
  datatype Book = Book(ids: IDs, next: int)

  /** No two guest images have the same host id. */
  ghost predicate Apart(ids: IDs) {
    forall w, g, w', g' :: Holds(ids, w, g) && Holds(ids, w', g') && ids[w][g] == ids[w'][g'] ==> w == w' && g == g'
  }

  /** Every id in the book was given once, to one guest image. */
  ghost predicate WellKept(b: Book) {
    && 1 <= b.next < ID_LIMIT && Apart(b.ids)
    && forall w, g :: Holds(b.ids, w, g) ==> b.ids[w][g] < b.next
  }

  /** Guest id 0 asks for an image of its own each time. */
  predicate Known(b: Book, w: string, guest: int) {
    guest != 0 && Holds(b.ids, w, guest)
  }

  function IDFor(b: Book, w: string, guest: int): int {
    if Known(b, w, guest) then b.ids[w][guest] else b.next
  }

  /** A guest image is looked up, and given the next id if it has none. */
  function Given(b: Book, w: string, guest: int): Book {
    if Holds(b.ids, w, guest) then b else Book(Stored(b.ids, w, guest, b.next), NextID(b.next))
  }

  /** So for every guest id but 0, which uses up an id and leaves no entry. */
  function Identified(b: Book, w: string, guest: int): Book {
    if guest == 0 then Book(b.ids[w := PaneOf(b.ids, w)], NextID(b.next)) else Given(b, w, guest)
  }

  lemma {:induction false} Identifies(b: Book, w: string, guest: int)
    ensures var t := Identified(b, w, guest);
            && (forall v: string, g: int ::
                  Holds(t.ids, v, g) <==> Holds(b.ids, v, g) || (v == w && g == guest && g != 0))
            && (forall v: string, g: int :: Holds(t.ids, v, g) ==>
                  t.ids[v][g] == if Holds(b.ids, v, g) then b.ids[v][g] else b.next)
            && t.next == if Known(b, w, guest) then b.next else NextID(b.next)
  {
  }

  /** The ids stay apart, and the book well kept until they wrap round. */
  lemma {:induction false} StaysApart(b: Book, w: string, guest: int)
    requires WellKept(b)
    ensures Apart(Identified(b, w, guest).ids)
    ensures Known(b, w, guest) || b.next != ID_LIMIT - 1 ==> WellKept(Identified(b, w, guest))
  {
    Identifies(b, w, guest);
    hide Identified;
  }

  /** A guest image keeps its id, others keep theirs, and a new one is nobody else's until the ids wrap round. */
  lemma {:induction false} GivenIsOwn(b: Book, w: string, guest: int)
    requires WellKept(b)
    ensures var t := Given(b, w, guest);
            && Holds(t.ids, w, guest) && Apart(t.ids) && Given(t, w, guest) == t
            && (forall v: string, g: int :: Holds(b.ids, v, g) ==> Holds(t.ids, v, g) && t.ids[v][g] == b.ids[v][g])
            && (forall v: string, g: int :: Holds(t.ids, v, g) ==> Holds(b.ids, v, g) || (v, g) == (w, guest))
            && (WellKept(t) <==> Holds(b.ids, w, guest) || b.next != ID_LIMIT - 1)
  {
    var t := Given(b, w, guest);
    if !Holds(b.ids, w, guest) {
      forall v: string, g: int
        ensures Holds(t.ids, v, g) <==> Holds(b.ids, v, g) || (v, g) == (w, guest)
        ensures Holds(t.ids, v, g) ==> t.ids[v][g] == if Holds(b.ids, v, g) then b.ids[v][g] else b.next
      {
      }
      assert t.ids[w][guest] == b.next;
    }
  }
}
