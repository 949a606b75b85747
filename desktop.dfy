/** The server's record of where each managed window is shown on the
    viewer and whether it is shown at all (`DesktopManager`), and its vote in
    the ownership election that decides which manager places a window. */
module Desktop {
  import opened Packets

  datatype Geometry = Geometry(x: int, y: int, w: int, h: int)

  /** The per-window record: `shown` and `geom`. */
  datatype ModelState = ModelState(shown: bool, geom: Geometry)

  class DesktopManager {
    /** `_models` */
    var models: map<Window, ModelState>

    constructor ()
      ensures models == map[]
    {
      models := map[];
    }

    /** `window_geometry` */
    function WindowGeometry(model: Window): Geometry
      reads this
      requires model in models
    {
      models[model].geom
    }

    /** `visible` */
    function Visible(model: Window): bool
      reads this
      requires model in models
    {
      models[model].shown
    }

    /** `_elect_me`: this manager claims the window (+1) exactly while it
        shows it, and yields it (-1) otherwise. */
    function ElectMe(model: Window): int
      reads this
      requires model in models
    {
      if Visible(model) then 1 else -1
    }

    /** `window_size` */
    function WindowSize(model: Window): (int, int)
      reads this
      requires model in models
    {
      (models[model].geom.w, models[model].geom.h)
    }

    /** `window_position`: the recorded position, whatever size the window
        ended up with (a mismatch is only reported). */
    function WindowPosition(model: Window, w: int, h: int): (int, int)
      reads this
      requires model in models
    {
      (models[model].geom.x, models[model].geom.y)
    }

    /** `add_window`: the window starts hidden, at the given geometry. */
    method AddWindow(model: Window, x: int, y: int, w: int, h: int)
      modifies this
      ensures models == old(models)[model := ModelState(false, Geometry(x, y, w, h))]
      ensures !Visible(model) && ElectMe(model) == -1
      ensures WindowGeometry(model) == Geometry(x, y, w, h)
      ensures WindowSize(model) == (w, h) && WindowPosition(model, w, h) == (x, y)
    {
      models := models[model := ModelState(false, Geometry(x, y, w, h))];
    }

    /** `show_window`: record the geometry and show the window; the
        manager then claims it in the election. */
    method ShowWindow(model: Window, x: int, y: int, w: int, h: int)
      requires model in models
      modifies this
      ensures models == old(models)[model := ModelState(true, Geometry(x, y, w, h))]
      ensures Visible(model) && ElectMe(model) == 1
      ensures WindowGeometry(model) == Geometry(x, y, w, h)
      ensures WindowSize(model) == (w, h) && WindowPosition(model, w, h) == (x, y)
    {
      models := models[model := ModelState(true, Geometry(x, y, w, h))];
    }

    /** `hide_window`: the geometry is kept; the manager then yields the
        window in the election. */
    method HideWindow(model: Window)
      requires model in models
      modifies this
      ensures models == old(models)[model := ModelState(false, old(models)[model].geom)]
      ensures !Visible(model) && ElectMe(model) == -1
      ensures WindowGeometry(model) == old(WindowGeometry(model))
      ensures WindowSize(model) == old(WindowSize(model))
      ensures var (w, h) := WindowSize(model); WindowPosition(model, w, h) == old(WindowPosition(model, w, h))
    {
      models := models[model := ModelState(false, models[model].geom)];
    }

    /** `_unmanaged`: forget the window. */
    method Unmanaged(model: Window)
      requires model in models
      modifies this
      ensures models == old(models) - {model}
    {
      models := models - {model};
    }
  }
}
