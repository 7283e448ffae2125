/** The constants of backend/core/config.py that the core reads. */
module Config {
  import opened Common

  const OVERLAY_DIR := "/app/overlays"
  const GUAC_DATA_SOURCE := "postgresql"

  /** The JSON file `save_state` writes, next to the disk images. */
  const DB_FILE := Join(OVERLAY_DIR, "lab_state.json")

  /** VNC display `:0` listens on this TCP port. */
  const FIRST_VNC_PORT := 5900

  /** Python's `list(range(lo, hi))`. */
  function Range(lo: int, hi: int): (r: seq<int>)
    ensures |r| == if lo < hi then hi - lo else 0
    ensures forall k :: 0 <= k < |r| ==> r[k] == lo + k
    decreases hi - lo
  {
    if lo >= hi then [] else [lo] + Range(lo + 1, hi)
  }

  /** `list(range(5900, 5921))`: displays `:0` through `:20`. */
  const VNC_PORT_POOL: seq<int> := Range(FIRST_VNC_PORT, FIRST_VNC_PORT + 21)

  /** The pool holds 21 ports, duplicate-free and none of them falsy (zero). */
  lemma PoolShape()
    ensures |VNC_PORT_POOL| == 21 && NoDup(VNC_PORT_POOL) && 0 !in VNC_PORT_POOL
    ensures forall k :: 0 <= k < |VNC_PORT_POOL| ==> VNC_PORT_POOL[k] == FIRST_VNC_PORT + k
  {
  }
}
