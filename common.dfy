/** Values shared by every part of the model: optional results and the
    screen geometry that pyautogui reports for a match. */
module Common {

  datatype Option<T> = None | Some(value: T)

  /** A match box as pyautogui returns it: left/top corner and size. */
  datatype Rect = Rect(left: int, top: int, width: nat, height: nat)

  datatype Point = Point(x: int, y: int)

  /** `pyautogui.center(box)`: the middle of the box, halves rounded down. */
  function Center(box: Rect): (p: Point)
    ensures box.left <= p.x <= box.left + box.width
    ensures box.top <= p.y <= box.top + box.height
    ensures 0 <= box.width - 2 * (p.x - box.left) <= 1
    ensures 0 <= box.height - 2 * (p.y - box.top) <= 1
  {
    Point(box.left + box.width / 2, box.top + box.height / 2)
  }
}
