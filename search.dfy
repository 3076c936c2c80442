/** `useSearch`: the store saying whether the search dialog is open. */
module SearchDialog {

  class SearchStore {
    var isOpen: bool

    constructor()
      ensures !isOpen
    {
      isOpen := false;
    }

    method OnOpen()
      modifies this
      ensures isOpen
    {
      isOpen := true;
    }

    method OnClose()
      modifies this
      ensures !isOpen
    {
      isOpen := false;
    }

    method Toggle()
      modifies this
      ensures isOpen == !old(isOpen)
    {
      isOpen := !isOpen;
    }
  }

  /**
   * Two toggles give back the state they started from, whichever it was;
   * opening and closing do not depend on it.
   */
  method ToggleTwice(startOpen: bool) returns (afterOne: bool, afterTwo: bool, afterOpen: bool, afterClose: bool)
    ensures afterOne == !startOpen && afterTwo == startOpen
    ensures afterOpen && !afterClose
  {
    var s := new SearchStore();
    if startOpen {
      s.OnOpen();
    }
    s.Toggle();
    afterOne := s.isOpen;
    s.Toggle();
    afterTwo := s.isOpen;
    s.OnOpen();
    s.OnOpen();
    afterOpen := s.isOpen;
    s.OnClose();
    afterClose := s.isOpen;
  }
}
